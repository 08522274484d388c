# Advent of Code 2023, days 1 to 23, in Dafny

This project models the Rust solutions of Advent of Code 2023, days 1 to 23
(`src/bin/day1.rs` to `src/bin/day23.rs`), and proves what they compute.
There is one module per day, `DayN` in `dayN.dfy`. Days 14, 19 and 22 are
split over several files:

- `Day14Grid`, `Day14Tilt` and `Day14Cycle` hold the grid, the tilt and the cycle search.
- `Day19Tally` counts the accepted rating points.
- `Day22Bricks` and `Day22Fall` hold the bricks, their landing and their support relations.

Helpers that several days share live in four modules:

- `Text`: Rust's `split`, `trim`, `parse` and byte conversions on strings, and slicing at UTF-8 byte offsets (`Utf8Len`, `CharBoundary`, `ByteSlice`) where a program cuts a `str` by byte.
- `Common`: sums, maxima, folds and set sizes.
- `Arith`: the gcd loop and the least-common-multiple fold used by days 8 and 20.
- `Sorting`: a stable insertion sort standing in for `sort_by`.

Each part takes its puzzle input as the sequence of lines the program reads.

- A program that panics (an `unwrap` on `None`, an index out of bounds,
  `unreachable!`, an arithmetic underflow in debug mode) gives `None`.
- `HashMap`, `HashSet` and `VecDeque` become maps, sets and sequences.
- Loops that update state are methods. Each is proved against a function
  or a least-closed-set definition that says what the answer means.
- Further lemmas relate those definitions to the puzzle's own terms: the
  least common multiple, the least closed set of beam states, the
  reachable plots, the bricks that fall, the accepted points of a box.

## Model

| member | source | states |
|---|---|---|
| Day1.Reduced | src/bin/day1.rs:29-30 | `reduce(+)` then `unwrap_or(1)`: 1 for no values, otherwise their sum |
| Day1.FirstDigit | src/bin/day1.rs:24 | the position found holds a decimal digit and no digit comes before it; None exactly when the line has no digit |
| Day1.LastDigit | src/bin/day1.rs:25 | the position found from the back holds a digit and no digit follows it; None exactly when the line has no digit |
| Day1.FirstLast | src/bin/day1.rs:24-25 | a line has a first digit exactly when it has a last digit, and the first is not after the last |
| Day1.Part1Answer | src/bin/day1.rs:19-31 | a line is dropped by `filter_map` exactly when it has no digit; with no digit anywhere part 1 is 1, otherwise the sum of 10 * first digit + last digit over the lines that have one |
| Day1.ReversedWordsReverse | src/bin/day1.rs:44-47 | each word of `valid_digits_rev` is the corresponding digit word read backwards |
| Day1.Least | src/bin/day1.rs:57-58 | the element `sort_unstable` puts first: a candidate that precedes every other in (position, value) order; None only for no candidates |
| Day1.Greatest | src/bin/day1.rs:81-82 | the element `sort_unstable` puts last: a candidate every other precedes; None only for no candidates |
| Day1.WordDigitEarliest | src/bin/day1.rs:49-59 | `get_digit_str` over the digit words reports a word that starts at the reported position and spells the reported value, no word starts earlier, and it is None exactly when no word occurs |
| Day1.LastDigitUnique | src/bin/day1.rs:25 | a digit with no digit after it is the last digit |
| Day1.BackDigit | src/bin/day1.rs:61-75 | `get_digit` on the reversed line, mapped back by `len - 1 - x`, is the position and value of the last digit of the line |
| Day1.BackWord | src/bin/day1.rs:69-73 | `get_digit_str` over the reversed words on the reversed line, mapped back by `len - 1 - x`, reports the digit word that ends last, at the position of its last character; None exactly when no word occurs |
| Day1.CandidatesEmpty | src/bin/day1.rs:70-79 | after `filter(is_some)` a line has no candidate exactly when it has neither a digit nor a digit word |
| Day1.RecalibrationPresent | src/bin/day1.rs:81-86 | a line gives no value exactly when it has no digit and no digit word; otherwise 10 * the value of the least candidate + the value of the greatest |
| Day1.Values | src/bin/day1.rs:66-87 | one part 2 value (or None) per line, in order |
| Day1.Part2Answer | src/bin/day1.rs:34-90 | with no value on any line part 2 is 1, otherwise the sum of the values of the lines that have one |
| Day1.WordDigitFound | src/bin/day1.rs:49-59 | a reported word occurs at the reported place and no digit word occurs earlier |
| Day1.WordDigitAbsent | src/bin/day1.rs:49-59 | no report means no digit word occurs anywhere in the line |
| Day1.ReversedFirstDigit | src/bin/day1.rs:61-64 | the first digit of the reversed line, mapped back by `len - 1 - x`, is the last digit of the line |
| Day1.Part1 | src/bin/day1.rs:19-31 | part 1: the values that `filter_map` keeps, added by `reduce` with 1 for none; Day1.Part1Answer proves that a line is dropped exactly when it has no digit and that the answer is the sum of 10 * first digit + last digit over the other lines |
| Day1.Part2 | src/bin/day1.rs:34-90 | part 2: the line values, added with 1 for none; Day1.Part2Answer and Day1.RecalibrationPresent prove that a line counts exactly when it has a digit or a digit word, with 10 * the earliest candidate + the latest |
| Day1.Candidates | src/bin/day1.rs:70-79 | the four candidates of a line, the absent ones removed as `filter(is_some)` does: earliest word, word ending last, first digit, last digit; Day1.CandidatesEmpty proves the list is empty exactly when the line has neither a digit nor a digit word |
| Day2.ParseDraw | src/bin/day2.rs:42-53 | a trimmed "count colour" entry parses exactly when its first space-separated token is a number and a second token exists; the count is that number and the colour that token |
| Day2.ParseGame | src/bin/day2.rs:26-57 | a line split on ':' and ';' parses exactly when the last word of the head is a number and every round parses; the index is that number and there is one round per piece after the head |
| Day2.MaxOr | src/bin/day2.rs:83-117 | `max().unwrap_or(d)`: d for no counts, otherwise a count that no count exceeds |
| Day2.CountsMembers | src/bin/day2.rs:74-82 | the counts kept by the `filter_map` are exactly the counts of the draws of that colour |
| Day2.ColourBound | src/bin/day2.rs:73-86 | the maximum with `u32::MAX` as default is within the bag's limit exactly when the colour is drawn at least once and no draw of it exceeds the limit |
| Day2.PossibleIff | src/bin/day2.rs:64-93 | a game counts for part 1 exactly when each of red, green and blue is drawn and never more than 12, 13 and 14 at once |
| Day2.PowerMeaning | src/bin/day2.rs:96-121 | each colour's factor bounds every draw of that colour and, when positive, is one of them; the power is the product of the three factors |
| Day2.ParseGames | src/bin/day2.rs:22-61 | the games come back exactly when every line parses, entry k being line k parsed; one malformed line panics |
| Day2.Part1 | src/bin/day2.rs:64-93 | an answer exactly when every line parses (the sum of the indices of the possible games, whose meaning Day2.PossibleIff states) |
| Day2.Part2 | src/bin/day2.rs:96-121 | an answer exactly when every line parses (the sum of the powers, whose meaning Day2.PowerMeaning states) |
| Day3.Clean | src/bin/day3.rs:27-37 | the cleaned line has the same length, and each character that is neither an ASCII digit nor '.' becomes '.' while every other character is kept |
| Day3.SymbolsBeforeMembers | src/bin/day3.rs:26-38 | a cell is recorded exactly when it lies in the grid and holds a symbol (neither a digit nor '.') |
| Day3.ExtractSymbols | src/bin/day3.rs:22-41 | the loop returns every line cleaned and the set of all symbol cells |
| Day3.ExtractMeaning | src/bin/day3.rs:22-41 | after cleaning only digits and '.' remain, digits are kept in place, and a cell is a recorded symbol exactly when it holds a symbol in the input |
| Day3.Parse32 | src/bin/day3.rs:59-98 | `parse::<u32>` succeeds only with a value that fits 32 bits |
| Day3.StartColNext | src/bin/day3.rs:74-116 | `pos` advances by the length of each piece plus one for the '.' after it |
| Day3.PieceAt | src/bin/day3.rs:52-91 | piece k of `split('.')` sits in the line at the column `pos` has reached when the loop gets to it |
| Day3.AroundAt | src/bin/day3.rs:60-103 | the nested loops over the number's columns and the offsets -1..2 visit, at step 9 * column + 3 * (di + 1) + (dj + 1), the cell (row + di, column + dj) |
| Day3.AroundMembers | src/bin/day3.rs:60-103 | the cells the loops visit are exactly those of the box one cell around the number (rows row-1..row+1, columns pos-1..pos+len) |
| Day3.Touches | src/bin/day3.rs:60-71 | the labelled search with `break 'out` answers whether some visited cell is a symbol |
| Day3.ScanRow1 | src/bin/day3.rs:50-77 | one row adds the contribution of each of its pieces, in order |
| Day3.Part1 | src/bin/day3.rs:46-80 | the sum over the cleaned rows of their pieces' contributions |
| Day3.Value1Meaning | src/bin/day3.rs:52-72 | a piece contributes its value exactly when it parses as a `u32` and some symbol lies in the box around it; otherwise nothing |
| Day3.AddAroundMeaning | src/bin/day3.rs:99-111 | after visiting the first t cells around a number, the map has an entry exactly for the cells already held or visited symbol cells, and a visited symbol cell's set gains the number |
| Day3.RecordAround | src/bin/day3.rs:99-112 | the nested loops record the number for every symbol cell around it, in loop order |
| Day3.RecordOffsets | src/bin/day3.rs:100-111 | one `di` round of the two inner loops records the three cells of that row offset |
| Day3.RecordPiece | src/bin/day3.rs:97-113 | a non-empty piece that parses is recorded around its start column; one that does not parse changes nothing |
| Day3.ScanRow2 | src/bin/day3.rs:87-118 | one row of part 2 records each of its pieces in order |
| Day3.RecordRows | src/bin/day3.rs:87-118 | the loop over all rows builds the map row by row from an empty one |
| Day3.BuildMap | src/bin/day3.rs:84-118 | `symbol_numbers` as built from the input |
| Day3.AddPieceMeaning | src/bin/day3.rs:97-113 | recording a piece adds its value to exactly the symbol cells it is next to |
| Day3.AddPiecesMeaning | src/bin/day3.rs:91-117 | after the first k pieces of a row, each symbol cell's set is its old set plus the values of those pieces next to it |
| Day3.AddRowsMeaning | src/bin/day3.rs:87-118 | after the first i rows each symbol cell's set is the set of values of the numbers of those rows next to it, and it has an entry exactly when that set is non-empty |
| Day3.RowNearMembers | src/bin/day3.rs:91-117 | a value is next to p in a row exactly when some piece of that row is a number of that value next to p |
| Day3.NearMembers | src/bin/day3.rs:87-118 | a value is recorded for p exactly when some piece of some row is a number of that value next to p |
| Day3.GearMapMeaning | src/bin/day3.rs:83-118 | the map holds, for each symbol cell, exactly the values of the numbers next to it, and an entry only when that set is non-empty |
| Day3.PairIs | src/bin/day3.rs:122 | a set of size two with two distinct members is exactly those two |
| Day3.RatioOf | src/bin/day3.rs:123 | the product of a set of two values is the product of the two |
| Day3.SingletonProduct | src/bin/day3.rs:123 | the product of a one-value set is that value |
| Day3.GearSumRemove | src/bin/day3.rs:120-124 | the sum over the map's entries does not depend on the order they are taken in |
| Day3.SumGears | src/bin/day3.rs:120-124 | the filter, product and sum give the sum of the contributions of all entries |
| Day3.GearMeaning | src/bin/day3.rs:120-124 | an entry with exactly two distinct values contributes their product; any other entry contributes nothing |
| Day3.Part2 | src/bin/day3.rs:83-125 | the sum over the map built from the input of the entries' contributions |
| Day3.Symbols | src/bin/day3.rs:22-41 | the symbol cells `extract_symbols` records; Day3.ExtractMeaning proves a cell is in it exactly when the input holds a symbol there |
| Day4.ParseU32 | src/bin/day4.rs:23 | a number word reads as a value that fits `u32`, and no larger |
| Day4.NumbersCount | src/bin/day4.rs:21-28 | `parse_numbers` maps each number to how many of the words read as it, and holds exactly the numbers that occur |
| Day4.ParseCardFormatted | src/bin/day4.rs:32-43 | a line `label:winning` then `pipe` then `ours` reads as the two number counts, whatever the label |
| Day4.ScoreStepDistinct | src/bin/day4.rs:57-63 | with distinct numbers each further match doubles the score 2^(m-1), staying within `u32` up to 32 matches |
| Day4.Shifted | src/bin/day4.rs:59 | `result << count` on `u32` keeps the low 32 bits, so the result is below 2^32 |
| Day4.Pow2Monotone | src/bin/day4.rs:57-63 | powers of two grow with the exponent |
| Day4.ScoreSoFarMatch | src/bin/day4.rs:57-63 | folding one more matching number keeps what the fold knows about the score |
| Day4.ScoreSoFarMiss | src/bin/day4.rs:54 | a number that is not winning is filtered out and leaves the score alone |
| Day4.Visit | src/bin/day4.rs:54-63 | one step of the filtered fold keeps what the fold knows, and panics only on a shift by 32 or more |
| Day4.ScoreFold | src/bin/day4.rs:53-63 | the fold over the map of our numbers ends knowing the score, or panics on a winning number occurring 32 times or more |
| Day4.CardScore | src/bin/day4.rs:53-64 | in any iteration order: with distinct numbers and at most 32 matches the card scores 2^(matches-1), or 0 with no match; it panics only on a winning number occurring 32 times or more |
| Day4.Part1 | src/bin/day4.rs:49-67 | part 1 is the sum of the card scores 2^(matches-1) when the cards have distinct numbers; it fails only on a shift by 32 or more |
| Day4.MatchCountRemove | src/bin/day4.rs:78-87 | the `wins` sum may take the numbers in any order |
| Day4.MatchCountDistinct | src/bin/day4.rs:78-87 | with distinct numbers `wins` is the number of matches |
| Day4.Wins | src/bin/day4.rs:78-87 | `wins` sums the counts of our numbers that are winning, in whatever order the map yields them |
| Day4.Spread | src/bin/day4.rs:89-91 | after card `ind`, each of the next `wins` cards that exist gains as many copies as card `ind` has, and no other count changes |
| Day4.CopiesSoFar | src/bin/day4.rs:72-93 | before card i is processed, its count is one plus the copies won from the cards processed so far |
| Day4.CopiesWhenProcessed | src/bin/day4.rs:89-93 | when card i is processed its count equals the directly defined number of copies: one plus a copy per copy of each earlier card whose wins reach it |
| Day4.CopiesKept | src/bin/day4.rs:89-91 | processing later cards never changes a card already processed |
| Day4.FinalCopies | src/bin/day4.rs:72-95 | the final count of every card is its number of copies, at least 1 |
| Day4.TotalAtLeast | src/bin/day4.rs:74-95 | every card counts at least once, so part 2 is at least the number of cards |
| Day4.TotalCopies | src/bin/day4.rs:72-95 | the in-place propagation sums, over all cards, the directly defined number of copies |
| Day4.Part2 | src/bin/day4.rs:70-96 | part 2 is the total number of cards, originals and won copies, of the parsed input |
| Day5.ParseMapRangeRoundTrip | src/bin/day5.rs:59-67 | a mapping line "dest src len" parses back to the range with source start src, destination start dest and length len (the columns are swapped into (src, dest, len)) |
| Day5.FirstContaining | src/bin/day5.rs:85-92 | the index returned is the first range whose source interval [src, src+len-1] holds the seed; None exactly when no range holds it |
| Day5.MapSeedOffset | src/bin/day5.rs:86-89 | a seed caught by a range lands inside that range's destination interval at the same offset from its start |
| Day5.Locate | src/bin/day5.rs:83-94 | the nested loop with `break` computes the seed's location: each map in order applies its first matching range, unmatched values pass through |
| Day5.FirstContainingUnique | src/bin/day5.rs:85-91 | a range that holds the seed with no earlier range holding it is the one the loop stops at |
| Day5.Part1 | src/bin/day5.rs:78-98 | None exactly when the almanac does not parse or has no seeds; otherwise the answer is the location of some seed and no seed's location is smaller |
| Day5.Initial | src/bin/day5.rs:104-109 | the k-th starting item is the interval [seeds[2k], seeds[2k]+seeds[2k+1]-1] at depth 0; an odd trailing seed is dropped |
| Day5.Pairs | src/bin/day5.rs:106-109 | the pairing loop builds exactly the starting items |
| Day5.Hits | src/bin/day5.rs:127-144 | the intersections kept are non-empty and lie inside the item, at most one per range |
| Day5.HitsCover | src/bin/day5.rs:127-144 | a value of the item lies in some intersection iff some range of the map holds it |
| Day5.SortPairs | src/bin/day5.rs:146 | `sort_unstable` on pairs: the result is sorted lexicographically and a permutation of the input |
| Day5.InsertPair | src/bin/day5.rs:146 | inserting into a sorted list keeps it sorted and adds exactly the element |
| Day5.ChildrenShape | src/bin/day5.rs:126-180 | with no intersection the item passes unchanged to the next depth; otherwise the first pushed items are the intersections shifted by dest - src, each non-empty |
| Day5.ChildrenUnmapped | src/bin/day5.rs:177-180 | an item that meets no range of the map is pushed unchanged at the next depth |
| Day5.LeftTailOverlaps | src/bin/day5.rs:150-153 | the left tail pushed ends at the first intersection's left end, so it overlaps that intersection by one value (as written) |
| Day5.Children | src/bin/day5.rs:126-180 | between 1 and 2n+1 items are pushed for a map of n ranges, all one depth deeper |
| Day5.Intersect | src/bin/day5.rs:127-144 | the range loop pushes the shifted intersections and collects their bounds; it collects none iff no range meets the item |
| Day5.PushTails | src/bin/day5.rs:148-176 | the tail and gap pushes are exactly those of the sorted intersections (left tail, right tail, then the windows as written) |
| Day5.Expand | src/bin/day5.rs:126-180 | one non-leaf item pushes exactly its children |
| Day5.Least | src/bin/day5.rs:118-124 | the running minimum starts at i64::MAX and is at most every value, and is one of them unless none is smaller |
| Day5.LeastAppend | src/bin/day5.rs:118-124 | the minimum over a concatenation is the smaller of the two minima |
| Day5.MeasureSameDepth | src/bin/day5.rs:119-181 | items at one depth weigh the same, so a batch of children weighs its count times that weight |
| Day5.PopDecreases | src/bin/day5.rs:119-181 | replacing a non-leaf item by fewer than B children one depth deeper lowers the queue's weight: the worklist terminates |
| Day5.PopLeaf | src/bin/day5.rs:123-124 | popping a leaf folds its left end into the minimum and lowers the weight |
| Day5.LeafMinUnfold | src/bin/day5.rs:126-180 | the leaf minimum of a non-leaf item is the least leaf minimum of its children |
| Day5.PopExpand | src/bin/day5.rs:119-181 | replacing an item by its children at the back of the queue leaves the least leaf minimum of the queue unchanged |
| Day5.Part2 | src/bin/day5.rs:101-185 | the worklist loop terminates and returns the smallest left end over every item that reaches the last map (i64::MAX if none), as defined by the recursive unfolding |
| Day5.ParseAll | src/bin/day5.rs:59-67 | a run of number words parses exactly when every word does, each to its own value |
| Day5.ChildrenShifted | src/bin/day5.rs:127-144 | each intersection is pushed shifted by its range's offset, one depth deeper, and non-empty |
| Day5.HitsUpToCover | src/bin/day5.rs:127-144 | a value of the item lies in one of the first n ranges exactly when it lies in one of their intersections |
| Day5.MinLocation | src/bin/day5.rs:81-96 | `min()` over the seeds' locations is the location of some seed and at most that of every seed |
| Day5.ParseInput | src/bin/day5.rs:24-75 | the almanac: seeds from the first block (words after the first that parse as `i64`), one map per later block (its name line, then its range lines); Day5.Part1 states the answer over it |
| Day6.Readings | src/bin/day6.rs:29 | each token becomes the result of trimming it and parsing it as an integer, in order |
| Day6.NumbersMembers | src/bin/day6.rs:25-30 | a number is read from a line exactly when some space-separated token after the first `:` trims to it |
| Day6.FieldAfterLabel | src/bin/day6.rs:25-30 | after a label without `:`, the numbers are read from the rest of the line split at `:` |
| Day6.FieldNoColon | src/bin/day6.rs:25-30 | a line without `:` yields no number, because `skip(1)` drops its only piece |
| Day6.WinsBelowCounts | src/bin/day6.rs:49 | the filter-and-count over holds 0..n-1 is the number of holds t with (time - t) * t > distance |
| Day6.WinsBelowBound | src/bin/day6.rs:49 | the count never exceeds the number of candidate holds |
| Day6.WaysMeaning | src/bin/day6.rs:49 | the count over `0..=time` is the size of the set of winning holds, at most time + 1, and holding t wins exactly when holding time - t does |
| Day6.Part1 | src/bin/day6.rs:43-51 | the answer is missing exactly when there are fewer than two lines (`unwrap` on a missing line panics) |
| Day6.ProductOfCounts | src/bin/day6.rs:50 | a product of counts is non-negative and is 0 once one count is 0 |
| Day6.RaceProductAnswer | src/bin/day6.rs:46-50 | the product over the races paired by `zip` is non-negative, and 0 when some paired race has no winning hold |
| Day6.DecimalAppend | src/bin/day6.rs:59-63 | appending digit strings multiplies the first value by 10 to the length of the second and adds the second |
| Day6.DecimalSnoc | src/bin/day6.rs:59-63 | one more digit gives ten times the value plus that digit |
| Day6.ConcatDigits | src/bin/day6.rs:57-62 | joining the `to_string` of non-negative numbers gives only digits, whose value is the numbers' digits joined |
| Day6.ConcatParse | src/bin/day6.rs:57-64 | the joined string parses to the joined number when there is at least one number and none is negative; with no number, or a negative number after the first, the parse fails |
| Day6.DigitsParse | src/bin/day6.rs:63 | a non-empty string of digits parses to its decimal value |
| Day6.ConcatNonEmpty | src/bin/day6.rs:57-62 | each number contributes at least one character |
| Day6.ConcatHasMinus | src/bin/day6.rs:57-64 | a negative number after the first puts a `-` inside the string, so the parse fails |
| Day6.MinusInside | src/bin/day6.rs:63 | a `-` after the first character never parses as an integer |
| Day6.Part2RaceMeaning | src/bin/day6.rs:54-73 | with two lines of non-negative numbers, at least one each, the race of part 2 has the joined numbers as time and distance; fewer lines, or a line without a number, panic |
| Day6.Part2Race | src/bin/day6.rs:54-73 | the race of part 2, time and distance each the line's numbers joined and parsed again; Day6.Part2RaceMeaning proves the joined values and the panics for missing lines and numbers |
| Day7.CountOcc | src/bin/day7.rs:33-36 | the fold gives each card its number of occurrences and holds exactly the cards of the hand |
| Day7.GetCount | src/bin/day7.rs:33-36 | the count of a card in the parsed map is its number of occurrences in the hand |
| Day7.OccPair | src/bin/day7.rs:33-36 | two different cards occur together at most as often as there are cards |
| Day7.OccPositive | src/bin/day7.rs:33-36 | a card with a positive count is in the hand |
| Day7.KindsOccStep | src/bin/day7.rs:33-36 | one more card adds one to the total count of the kinds it belongs to |
| Day7.KindsOccNone | src/bin/day7.rs:33-36 | an empty prefix has no occurrences of any kind |
| Day7.KindsOccTotal | src/bin/day7.rs:33-36 | in a hand made of distinct listed kinds the counts add up to the hand length |
| Day7.CountsTotal | src/bin/day7.rs:33-48 | the counts of a hand of `KINDS` cards add up to its length |
| Day7.KindsFacts | src/bin/day7.rs:46-52 | `KINDS` has 14 distinct cards, is `KINDS_NO_J` followed by the joker `.` |
| Day7.PositionFrom | src/bin/day7.rs:136-137 | `position` is None exactly when no predicate holds, else the first index whose predicate holds |
| Day7.HandTypeFirst | src/bin/day7.rs:126-137 | the hand type is the index of the first true predicate in [five, four, full house, three, two pair, one pair], or 10 when none holds |
| Day7.PlainNoJokers | src/bin/day7.rs:54-60 | a hand of `KINDS_NO_J` cards has no jokers |
| Day7.PlainAnyKind | src/bin/day7.rs:54-68 | without jokers, five (four) of a kind holds exactly when some card occurs five (four) times |
| Day7.PlainAnyKindSound | src/bin/day7.rs:54-68 | without jokers, `any(count + j == target)` implies some card occurs target times |
| Day7.PlainAnyKindComplete | src/bin/day7.rs:54-68 | without jokers, a card occurring target times makes `any(count + j == target)` true |
| Day7.FiveJokers | src/bin/day7.rs:54-60 | five jokers are five of a kind (type 0) |
| Day7.BestNoJBounds | src/bin/day7.rs:54-60 | the best non-joker count bounds every kind's count and is reached by one |
| Day7.JokersJoinBest | src/bin/day7.rs:54-60 | in a five-card hand, five of a kind holds exactly when the best non-joker count plus the jokers is 5 |
| Day7.IndexFrom | src/bin/day7.rs:145-146 | `position` in `KINDS` finds an index holding the card, and is None exactly when the card is absent |
| Day7.FirstDiff | src/bin/day7.rs:140-143 | `zip().find(a != b)` gives the first place where the hands differ within the shorter one, or None when one is a prefix of the other |
| Day7.FirstDiffAt | src/bin/day7.rs:140-143 | the first difference is exactly where the common prefix ends |
| Day7.FirstDiffSymmetric | src/bin/day7.rs:140-143 | the first difference does not depend on the argument order |
| Day7.HandsSwap | src/bin/day7.rs:135-153 | swapping the two hands reverses the comparator's answer and panics alike |
| Day7.HandsNotEqual | src/bin/day7.rs:135-153 | the comparator never answers Equal |
| Day7.HandsTransitive | src/bin/day7.rs:135-153 | the comparator is transitive: type first, then card by card in `KINDS` order |
| Day7.TieBreakTransitive | src/bin/day7.rs:140-150 | the card-by-card tie break is transitive |
| Day7.HandsDefined | src/bin/day7.rs:140-150 | differing hands of one length made of `KINDS` cards never make the comparator panic |
| Day7.JokerIndex | src/bin/day7.rs:46-48 | the joker is the last card of `KINDS` |
| Day7.JokerWeakest | src/bin/day7.rs:139-150 | between hands of one type, a joker at the first difference loses to any other card |
| Day7.CompareSwap | src/bin/day7.rs:135-153 | the closure answers reversed when its arguments are swapped |
| Day7.CompareNotEqual | src/bin/day7.rs:135-153 | the closure never answers Equal |
| Day7.BeforeAsymmetric | src/bin/day7.rs:135-153 | if x sorts before y then y does not sort before x |
| Day7.BeforeTransitive | src/bin/day7.rs:135-153 | sorting before is transitive |
| Day7.CompareIdentical | src/bin/day7.rs:140-150 | two identical parsed hands make the comparator panic |
| Day7.CompareDefined | src/bin/day7.rs:135-150 | parsed hands of one length made of `KINDS` cards are comparable exactly when they differ |
| Day7.CompareOrder | src/bin/day7.rs:135-153 | the closure is antisymmetric, transitive and never Equal, as `sort_by` needs |
| Day7.WinningsMonotone | src/bin/day7.rs:155-159 | raising one bid never lowers the winnings |
| Day7.Solve | src/bin/day7.rs:125-160 | `solve` returns the rank-times-bid sum of a sorted permutation of the entries, panicking only on an incomparable pair and never when all are comparable |
| Day7.WordsPair | src/bin/day7.rs:29-31 | "a b" splits into the words a and b |
| Day7.ParseEntry | src/bin/day7.rs:28-40 | a parsed entry carries the counts of its own hand and a bid within `u32` |
| Day7.ParseEntryFormatted | src/bin/day7.rs:28-40 | a line written as "hand bid" parses back to that hand, its counts and that bid |
| Day7.ParseExact | src/bin/day7.rs:25-44 | parsing succeeds exactly when every line parses, and entry k is line k parsed |
| Day7.ReplaceJCounts | src/bin/day7.rs:172-175 | after `replace("J", ".")` the jokers are the former jacks plus jokers and no jack remains |
| Day7.RanksUnique | src/bin/day7.rs:135-159 | the ranking of a set of entries is unique, so the winnings do not depend on the sorting algorithm |
| Day7.DistinctHandsComparable | src/bin/day7.rs:135-150 | distinct parsed five-card hands of `KINDS` cards are pairwise comparable, so the sort cannot panic |
| Day7.Part1 | src/bin/day7.rs:163-167 | part 1 is the winnings of a ranking of the parsed entries, defined whenever the input parses and all entries are comparable |
| Day7.Part2 | src/bin/day7.rs:170-178 | part 2 is part 1 on the lines with every `J` replaced by `.` |
| Day7.Parse | src/bin/day7.rs:25-44 | every line parsed, `None` once one panics; Day7.ParseExact proves it succeeds exactly when every line parses and keeps line k at place k |
| Day8.ParseInstructions | src/bin/day8.rs:30-39 | the instruction line is read only when every character is `L` or `R` (anything else is unreachable), and then `L` becomes 0 and `R` 1, position by position |
| Day8.ParseRuleFormat | src/bin/day8.rs:41-64 | a line `A = (B, C)` with names A, B and C reads as the rule from A to left B and right C |
| Day8.TrimName | src/bin/day8.rs:48 | trimming a name followed by a space gives back the name |
| Day8.StripParens | src/bin/day8.rs:53 | `trim_matches` of spaces and parentheses turns ` (B, C)` into `B, C` |
| Day8.TrimClosing | src/bin/day8.rs:53 | a trailing stripped character after a kept text is removed, and only it |
| Day8.SplitStrPair | src/bin/day8.rs:55-61 | `B, C` splits on ", " into exactly B and C |
| Day8.SplitStrNoSep | src/bin/day8.rs:55 | a text without a comma splits into itself alone |
| Day8.SplitStrAfter | src/bin/day8.rs:55 | a comma-free text followed by ", " and a comma-free rest splits into those two |
| Day8.SplitStrCons | src/bin/day8.rs:55 | a leading character other than ',' joins the first piece and leaves the others unchanged |
| Day8.Step | src/bin/day8.rs:83-121 | a step that does not panic leaves the instruction index below the number of instructions |
| Day8.StepsUntilMeaning | src/bin/day8.rs:82-123 | the walk's count is n exactly when, within the step bound, the walk stands on a goal node after n steps and on no goal node before |
| Day8.ReachesShift | src/bin/day8.rs:82-87 | from a non-goal node, reaching a goal in n steps is reaching it in n - 1 steps from the successor |
| Day8.Walk | src/bin/day8.rs:77-125 | the `while` loop returns the step count of the walk from the start node, or nothing when a node has no rule or the step bound is exhausted |
| Day8.Part1 | src/bin/day8.rs:74-90 | the answer is the count of the walk from `AAA` to `ZZZ` over the parsed network, missing when parsing panics |
| Day8.Walks | src/bin/day8.rs:112-126 | there is one walk per start node, each the count of the walk from that node to a node ending in `Z` |
| Day8.WalkAll | src/bin/day8.rs:112-126 | the walks one after another give all the counts, or nothing as soon as one walk panics |
| Day8.Part2 | src/bin/day8.rs:93-130 | the answer is the least-common-multiple fold of the walk counts, the start nodes being the nodes ending in `A`, each once |
| Day8.CombinedMultiple | src/bin/day8.rs:112-127 | every start node's walk count divides the answer of part 2 |
| Day8.ParseInput | src/bin/day8.rs:22-72 | the instructions of the first non-empty line and the rule map of the others, later rules for a node replacing earlier ones; Day8.Part1 and Day8.Part2 state the walks over it |
| Day9.Diff | src/bin/day9.rs:47 | one differencing step shortens a non-empty line by exactly one, with entry k equal to line[k+1] - line[k] |
| Day9.NextExtends | src/bin/day9.rs:38-58 | the forward extrapolation is consistent with the difference table: appending it to the line appends the differences' own extrapolation to the differences |
| Day9.PrevExtends | src/bin/day9.rs:65-86 | the backward extrapolation prepended to the line prepends the differences' own backward extrapolation to the differences |
| Day9.ZeroLine | src/bin/day9.rs:41-68 | an all-zero (or empty) line records nothing and contributes 0 to both parts |
| Day9.ConstantLine | src/bin/day9.rs:38-86 | a constant line of value c extrapolates to c in both directions |
| Day9.ArithmeticLine | src/bin/day9.rs:38-86 | a line with constant difference d extrapolates to last + d forwards and first - d backwards |
| Day9.RecordedStep | src/bin/day9.rs:41-48 | a level that is not all zeros records its last (first) value and continues with its differences |
| Day9.Record | src/bin/day9.rs:39-48 | the `while` loop terminates (the line shortens each round), never reads an empty line, and records exactly the last (or first) value of every level above the first all-zero one |
| Day9.RightMostTails | src/bin/day9.rs:50-57 | folding the reversed tails by addition gives the forward extrapolation, which is the sum of the recorded tails |
| Day9.LeftMostHeads | src/bin/day9.rs:78-85 | folding the reversed heads by subtraction gives the backward extrapolation, the alternating sum first₀ - (first₁ - (first₂ - …)) |
| Day9.LineValue | src/bin/day9.rs:38-58 | one line's contribution is its forward (part 1) or backward (part 2) extrapolation |
| Day9.Solve | src/bin/day9.rs:38-65 | the total is the sum over the lines of their extrapolated values |
| Day9.Part1 | src/bin/day9.rs:35-59 | the sum of the forward extrapolations of the parsed lines |
| Day9.Part2 | src/bin/day9.rs:62-87 | the sum of the backward extrapolations of the parsed lines |
| Day9.NextStep | src/bin/day9.rs:41-57 | the forward extrapolation less the last value is the forward extrapolation of the differences |
| Day9.PrevStep | src/bin/day9.rs:68-85 | the first value less the backward extrapolation is the backward extrapolation of the differences |
| Day9.DiffAppend | src/bin/day9.rs:47 | appending a value to a line appends its difference from the last value to the differences |
| Day9.DiffPrepend | src/bin/day9.rs:74 | prepending a value to a line prepends its difference to the first value to the differences |
| Day9.RightMostReverse | src/bin/day9.rs:50-57 | folding the reversed record by addition sums the record |
| Day9.LeftMostReverse | src/bin/day9.rs:78-85 | folding the reversed record by subtraction gives its alternating sum |
| Day9.FrontTails | src/bin/day9.rs:41-57 | the sum of the recorded last values is the forward extrapolation |
| Day9.AlternatingHeads | src/bin/day9.rs:68-85 | the alternating sum of the recorded first values is the backward extrapolation |
| Day10.OppositeInvolution | src/bin/day10.rs:28-30 | `adjacent_to` is an involution without fixed point: it turns each direction into its reverse |
| Day10.MoveOpposite | src/bin/day10.rs:26-30 | a step followed by a step in the reverse direction (`adjacent_to`) returns to where it began |
| Day10.TileWays | src/bin/day10.rs:44-57 | each pipe character connects exactly the two directions its shape shows, `.` and `S` connect none, and any other character is unreachable |
| Day10.ParseRow | src/bin/day10.rs:43-58 | a line parses exactly when every character is a known tile, and then tile by tile |
| Day10.ParseRows | src/bin/day10.rs:39-60 | the lines parse exactly when every line does, and then line by line |
| Day10.FixStart | src/bin/day10.rs:62-68 | the fix-up changes only the start tile, keeps the grid's shape, and links the start toward each direction exactly as the bounds test and the neighbour's reverse link say; it panics when a direction indexes outside the matrix |
| Day10.ParseWith | src/bin/day10.rs:32-71 | a parsed input has one row per line, and at least one line |
| Day10.Parse | src/bin/day10.rs:32-71 | the parse with the column bound `to_j < m` keeps one row per line |
| Day10.StartOnLastColumn | src/bin/day10.rs:62-68 | with `to_j <= m` as written, the one-line input `S` panics (the start's right neighbour is read out of bounds), while the bound `to_j < m` parses it to one unconnected start tile |
| Day10.ParseSingleStart | src/bin/day10.rs:39-60 | the line `S` parses to one unconnected tile, the start at (0, 0) |
| Day10.FixSingleStart | src/bin/day10.rs:62-68 | on that grid the test `to_j <= m` indexes column 1 and panics, while `to_j < m` leaves the tile unconnected |
| Day10.ParseMeaning | src/bin/day10.rs:32-71 | the start lies in the grid on an `S`, and it connects toward a direction exactly when the neighbour there is in the lines and connects back |
| Day10.LinkMeaning | src/bin/day10.rs:63-67 | the start's link toward one direction, read back in terms of the input lines |
| Day10.AdjacentSymmetric | src/bin/day10.rs:90-97 | the link test is symmetric: if a is linked to b then b is linked to a |
| Day10.Candidates | src/bin/day10.rs:86-102 | the first `filter_map` keeps only neighbours linked to the current cell |
| Day10.Filter | src/bin/day10.rs:103-116 | the second `filter_map` keeps unvisited linked cells of the matrix; the best path changes only to the current path, one longer than before, when a visited linked cell other than the parent is met |
| Day10.ClosesMore | src/bin/day10.rs:104-110 | a path that ran into the visited trail still does after more cells are visited |
| Day10.ExtendsDrop | src/bin/day10.rs:84-122 | a path extending p + [c] extends p |
| Day10.TrailStep | src/bin/day10.rs:83-119 | pushing an unvisited linked cell keeps the path a simple chain of visited cells |
| Day10.AfterFilter | src/bin/day10.rs:103-116 | a recorded path is the current path and runs into the trail, so the recorded answer stays a simple chain that closes on the trail |
| Day10.Dfs | src/bin/day10.rs:73-123 | the search returns `path` as it got it, marks at least the current cell and only grid cells, and the recorded answer is either unchanged or a longer extension of the current path that is a simple linked chain closing on the trail |
| Day10.VisitAll | src/bin/day10.rs:118-120 | the `for` loop over the kept neighbours keeps the same promises over all of them |
| Day10.ChildDone | src/bin/day10.rs:118-120 | searching one more neighbour keeps the loop's promises |
| Day10.Search | src/bin/day10.rs:126-141 | the search from the start records `mx` equal to the length of the recorded path, which is empty or a simple linked chain from the start that closes on the trail |
| Day10.Part1 | src/bin/day10.rs:125-144 | the answer is half the length of such a path; it is missing exactly when parsing panics or the start lies beyond the first row's width |
| Day10.ScanPrefixNone | src/bin/day10.rs:179-225 | once an `assert!` or `unreachable!` fires in a row, the row's scan stays failed |
| Day10.ScanParity | src/bin/day10.rs:179-225 | while no `L` pipe is met with `in_up` already set, the `enclosed` flag is the parity of the upward-connecting path tiles met so far, flipped while `in_up` is set, and the count never exceeds the cells off the path |
| Day10.NothingBeforePath | src/bin/day10.rs:176-224 | cells before the first path tile of a row are never counted |
| Day10.OnRow | src/bin/day10.rs:166-180 | the `on_path` flags of a row have the row's length |
| Day10.CountRowsNone | src/bin/day10.rs:175-226 | once one row's scan fails, the whole count fails |
| Day10.ScanRow | src/bin/day10.rs:176-225 | the inner loop gives the scan of the whole row, and panics when the row is wider than `on_path` |
| Day10.CountAll | src/bin/day10.rs:173-226 | the outer loop sums the rows' counts, failing when one row fails |
| Day10.Part2 | src/bin/day10.rs:146-229 | the answer is the row scan count over the cells of a path the search can record, missing when parsing panics or the start lies beyond the first row's width |
| Day10.ParseAsWritten | src/bin/day10.rs:32-71 | `parse_input` with the column test `to_j <= m` as written; Day10.StartOnLastColumn shows it panics on the one-line grid `S` |
| Day11.RowScanAll | src/bin/day11.rs:36 | on a line of at least m cells the short-circuiting `all` never runs out of bounds and is true exactly when the first m cells are all `.` |
| Day11.ColScanAll | src/bin/day11.rs:42 | when every row reaches column j the column's `all` never runs out of bounds and is true exactly when the column is all `.` |
| Day11.CollectEmptyRows | src/bin/day11.rs:35-39 | the row loop pushes the empty rows in order, and panics (None) when a scan runs off a short line |
| Day11.CollectEmptyCols | src/bin/day11.rs:41-45 | the column loop pushes the empty columns in order, and panics (None) when a scan runs off a short line |
| Day11.CollectGalaxies | src/bin/day11.rs:47-59 | the extend loop appends each row's `#` positions, row after row |
| Day11.ParseInput | src/bin/day11.rs:21-62 | `parse_input` panics (None) on an empty image or when a scan runs off a short line; otherwise it returns the galaxies and the empty rows and columns collected by its three loops |
| Day11.RowsNone | src/bin/day11.rs:35-39 | a panicking row scan makes the whole row pass panic |
| Day11.ColsNone | src/bin/day11.rs:41-45 | a panicking column scan makes the whole column pass panic |
| Day11.EmptyRowsExact | src/bin/day11.rs:35-39 | on a rectangular image `expanded_rows` lists, in increasing order, exactly the rows whose cells are all `.` |
| Day11.EmptyColsExact | src/bin/day11.rs:41-45 | on a rectangular image `expanded_cols` lists, in increasing order, exactly the columns whose cells are all `.` |
| Day11.RowGalaxiesSound | src/bin/day11.rs:48-57 | every position a row contributes is a `#` cell of that row |
| Day11.RowGalaxiesComplete | src/bin/day11.rs:48-57 | every `#` cell of a row is contributed |
| Day11.RowGalaxiesOrder | src/bin/day11.rs:48-57 | a row's galaxies come left to right |
| Day11.GalaxiesSound | src/bin/day11.rs:47-59 | every galaxy listed is a `#` position of the image |
| Day11.GalaxiesComplete | src/bin/day11.rs:47-59 | every `#` position of the image is listed |
| Day11.GalaxiesOrder | src/bin/day11.rs:47-59 | the galaxies are listed in row-major order |
| Day11.ParsedWellFormed | src/bin/day11.rs:21-62 | a non-empty rectangular image parses, and no galaxy lies on an empty row or column |
| Day11.SearchSplits | src/bin/day11.rs:77-83 | on the strictly increasing lists of empty lines the search panics exactly when the value is present, and otherwise returns the point splitting the list into smaller and larger entries |
| Day11.SearchFromMonotone | src/bin/day11.rs:77-83 | a larger value has an insertion point no earlier than a smaller one |
| Day11.SearchDifference | src/bin/day11.rs:77-88 | for two galaxy coordinates a <= b, er_right - er_left does not underflow and counts the empty lines strictly between a and b |
| Day11.DistExpanded | src/bin/day11.rs:75-88 | for galaxies off the empty lines the distance is abs(di) + abs(dj) + (k - 1) for every empty row and every empty column strictly between them |
| Day11.ExpandedSymmetric | src/bin/day11.rs:75-88 | the expanded distance is symmetric and 0 from a galaxy to itself |
| Day11.ExpandedMonotone | src/bin/day11.rs:85-88 | a larger expansion factor never gives a shorter distance |
| Day11.RowExpanded | src/bin/day11.rs:70-91 | the inner sum for galaxy i is the sum of its expanded distances to itself and every later galaxy |
| Day11.SolvePairs | src/bin/day11.rs:64-93 | on a well-formed image `solve` never panics and returns the sum of the expanded distances over every pair i <= j, each pair once |
| Day11.SelfPairZero | src/bin/day11.rs:70-74 | the self-pair (`skip` starts at the galaxy itself) contributes 0, so each row's sum equals the sum over strictly later galaxies |
| Day11.RowMonotone | src/bin/day11.rs:70-91 | each row's sum is non-decreasing in k |
| Day11.PairsTotalMonotone | src/bin/day11.rs:64-93 | the total is non-decreasing in k |
| Day11.SolveLines | src/bin/day11.rs:64-93 | `solve(file, k)` is the parse followed by the pair sum, panicking exactly when either does |
| Day11.AnswerMonotone | src/bin/day11.rs:64-103 | on a non-empty rectangular image both parts are defined and the part 2 factor gives at least the part 1 total |
| Day11.Part1 | src/bin/day11.rs:96-98 | `solve` with k = 2 |
| Day11.Part2 | src/bin/day11.rs:101-103 | `solve` with k = 1000000 |
| Day11.ExpandedManhattan | src/bin/day11.rs:85-88 | with factor 1 the expanded distance is the Manhattan distance |
| Day11.Solve | src/bin/day11.rs:64-93 | `solve` on the parsed image, `None` where a binary search's `err().unwrap()` panics; Day11.SolvePairs proves that on a well-formed image it is the sum of the expanded distances over every pair |
| Day12.IsValidPrefix | src/bin/day12.rs:47-62 | the check succeeds exactly when the next n - 1 cells can be damaged and the one after can be operational, and fails when the pattern is too short |
| Day12.CountNoGroupsLeft | src/bin/day12.rs:75-97 | with no group left, there is one arrangement when every remaining cell can be operational and none otherwise |
| Day12.CountNeedsRoom | src/bin/day12.rs:79-93 | there is no arrangement when the rest of the pattern is shorter than the next group plus its separator |
| Day12.Solve | src/bin/day12.rs:64-101 | the memoised recursion returns the number of arrangements from the current position and group, and keeps every memo entry equal to that number |
| Day12.Arrangements | src/bin/day12.rs:108-112 | a fresh memo table gives the number of arrangements of the whole row |
| Day12.Sizes | src/bin/day12.rs:35-40 | the sizes kept are at most as many as the comma-separated pieces |
| Day12.ParseRow | src/bin/day12.rs:21-45 | a line parses exactly when it has at least two whitespace-separated words |
| Day12.SizesOfNumbers | src/bin/day12.rs:35-40 | sizes written as decimals and separated by commas parse back unchanged |
| Day12.UnfoldShape | src/bin/day12.rs:121-133 | the unfolded pattern is five copies joined by `?`, ending in `..` |
| Day12.Repeat5 | src/bin/day12.rs:127-129 | the sizes are repeated five times |
| Day12.ParseRows | src/bin/day12.rs:21-45 | the lines parse exactly when each one does, one row per line |
| Day12.SumRows | src/bin/day12.rs:105-114 | the loop sums the arrangements of every row |
| Day12.Solution | src/bin/day12.rs:104-139 | the answer exists exactly when every line parses, and is the sum of the rows' arrangements, unfolded or not |
| Day12.Part1 | src/bin/day12.rs:104-115 | the sum of the rows' arrangements, each pattern followed by one `.` |
| Day12.Part2 | src/bin/day12.rs:118-139 | the sum of the unfolded rows' arrangements |
| Day13.AddRowUpToExtends | src/bin/day13.rs:81-87 | pushing a row onto at least as many columns appends its j-th element to column j and leaves the columns past the row's end untouched |
| Day13.AddRowUpToStarts | src/bin/day13.rs:81-87 | pushing a row onto no columns starts one single-element column per element |
| Day13.RotateUpToTransposes | src/bin/day13.rs:76-90 | folding the first n rows of a rectangular matrix gives their transpose: w columns of n entries with out[j][i] == in[i][j] |
| Day13.RotateTransposes | src/bin/day13.rs:76-90 | on a non-empty rectangular matrix `rotate` is the transpose: the result has one row per column and out[j][i] == in[i][j] |
| Day13.RotateTwice | src/bin/day13.rs:76-90 | rotating a non-empty rectangular matrix twice gives it back |
| Day13.RotateExample | src/bin/day13.rs:124-132 | the unit test's 4 x 2 example rotates to the expected 2 x 4 matrix |
| Day13.MismatchUpTo | src/bin/day13.rs:53-56 | counts the differing pairs among the first n reflected pairs, at most n |
| Day13.MismatchZero | src/bin/day13.rs:46-57 | a row has no mismatch at a fold exactly when it mirrors there on its shorter side |
| Day13.ScanSmallest | src/bin/day13.rs:64-73 | the lazy search returns the smallest fold after c whose summed mismatches equal `smudges`, or 0 when there is none |
| Day13.SolveSmallest | src/bin/day13.rs:38-74 | `solve` returns the smallest split in 1..line_len-1 with exactly `smudges` mismatches over all rows, or 0 when none exists |
| Day13.PerfectMirror | src/bin/day13.rs:38-74 | with no smudge allowed, a non-zero answer mirrors every row exactly |
| Day13.ZeroSum | src/bin/day13.rs:66-70 | a zero total of non-negative mismatch counts means every row's count is zero |
| Day13.Solution | src/bin/day13.rs:93-118 | the loop accumulates each pattern's column split plus 100 x the split of its rotation, and panics (None) exactly when the total does |
| Day13.SumNone | src/bin/day13.rs:97-101 | once a prefix of the patterns panics, the whole run panics |
| Day13.SumPatterns | src/bin/day13.rs:97-101 | the `for` loop returns the total of the patterns' scores, or None when one of them panics |
| Day13.AddScore | src/bin/day13.rs:98-100 | one iteration adds the pattern's column split plus 100 x the split of its rotation to the running total, or reports that the run panics |
| Day13.ScanBefore | src/bin/day13.rs:64-73 | no fold the lazy search passes over has exactly `smudges` mismatches |
| Day13.ScanFound | src/bin/day13.rs:64-73 | a non-zero answer of the search is a fold in range with exactly `smudges` mismatches |
| Day13.Part1 | src/bin/day13.rs:93-104 | the total score with exact mirrors |
| Day13.Part2 | src/bin/day13.rs:107-118 | the total score with exactly one smudge |
| Day13.Solve | src/bin/day13.rs:38-74 | `solve`, panicking on an empty pattern or first row; Day13.SolveSmallest proves the answer is the first mirror line with exactly `smudges` mismatches, or 0 |
| Day14Grid.Place | src/bin/day14.rs:40-48 | placing one row keeps every output row n cells long, and the output has as many rows as the longest row seen |
| Day14Grid.RotatePrefixCells | src/bin/day14.rs:34-51 | after the first k rows of a grid w wide, output row j holds input cell (i, j) at column n - 1 - i |
| Day14Grid.RotateQuarter | src/bin/day14.rs:34-51 | `rotate` of an n × w grid is a w × n grid with input cell (i, j) at (j, n - 1 - i): a clockwise quarter turn |
| Day14Grid.RotateCell | src/bin/day14.rs:34-51 | the same quarter turn, read per output cell |
| Day14Grid.RotateHalf | src/bin/day14.rs:34-51 | two rotations turn the grid by half a turn |
| Day14Grid.HalfTurnTwice | src/bin/day14.rs:34-51 | two half turns give the grid back |
| Day14Grid.RotateFour | src/bin/day14.rs:96-103 | four rotations, as in `cycle`, give a rectangular grid back unchanged |
| Day14Grid.MapGrid | src/bin/day14.rs:34-51 | the cell-wise image keeps the shape and maps every cell |
| Day14Grid.RotateMap | src/bin/day14.rs:34-51 | rotating commutes with any cell-wise image, such as the mask of `#` cells |
| Day14Grid.RotateFramed | src/bin/day14.rs:96-103 | a rotated grid whose border was all `#` still has an all-`#` border |
| Day14Tilt.CountBound | src/bin/day14.rs:72-75 | a stretch holds no more `O`s than cells |
| Day14Tilt.Hashes | src/bin/day14.rs:62-66 | `resh` lists cells of the column in increasing order |
| Day14Tilt.HashesExact | src/bin/day14.rs:62-66 | `resh` lists exactly the `#` cells of the column |
| Day14Tilt.WindowOfIs | src/bin/day14.rs:68-70 | each cell strictly between two consecutive `#` lies in exactly one of `resh.windows(2)` |
| Day14Tilt.WindowFromCovers | src/bin/day14.rs:68-70 | each non-`#` cell between the first and the last `#` lies in some window |
| Day14Tilt.CountPacked | src/bin/day14.rs:78-85 | writing count `O`s then dots into a window leaves count `O`s in it |
| Day14Tilt.TiltKeepsHashes | src/bin/day14.rs:77-86 | a tilt never moves, creates or removes a `#` |
| Day14Tilt.TiltOutside | src/bin/day14.rs:68-86 | cells before the first `#` and after the last are never rewritten |
| Day14Tilt.TiltWindowCell | src/bin/day14.rs:72-85 | inside a window, the tilted cell is `O` exactly when it is among the first as many cells as the window had `O`s |
| Day14Tilt.TiltWindow | src/bin/day14.rs:72-85 | each window becomes its `O`s packed toward its top `#`, followed by dots |
| Day14Tilt.TiltKeepsCount | src/bin/day14.rs:72-85 | a tilt keeps the number of `O`s of every window |
| Day14Tilt.TiltSettles | src/bin/day14.rs:72-85 | after a tilt every window has its `O`s packed at the top |
| Day14Tilt.SettledFixed | src/bin/day14.rs:72-85 | tilting a settled column changes nothing |
| Day14Tilt.TiltIdempotent | src/bin/day14.rs:72-85 | tilting twice is tilting once |
| Day14Tilt.TiltClean | src/bin/day14.rs:72-85 | in a column framed by `#`, every tilted cell is `#`, `O` or `.` |
| Day14Tilt.CountAppend | src/bin/day14.rs:72-75 | counting `O`s is additive over concatenation |
| Day14Tilt.TiltKeepsSegment | src/bin/day14.rs:72-85 | a tilt keeps the number of `O`s of a window together with its closing `#` |
| Day14Tilt.TiltNoHash | src/bin/day14.rs:68-86 | a column without `#` is left unchanged |
| Day14Tilt.TiltKeepsEnds | src/bin/day14.rs:68-86 | a tilt keeps the cells up to the first `#` and after the last |
| Day14Tilt.TiltKeepsTotal | src/bin/day14.rs:72-85 | a tilt keeps the number of `O`s of the whole column |
| Day14Tilt.WindowLoadFrame | src/bin/day14.rs:88-90 | a window's load depends only on the cells inside it |
| Day14Tilt.Col | src/bin/day14.rs:60 | `vertical_line` has one cell per row |
| Day14Tilt.TiltGrid | src/bin/day14.rs:59-92 | tilting keeps the grid's shape |
| Day14Tilt.Splice | src/bin/day14.rs:78-85 | the column with the cells strictly between top and bot replaced, and the other cells kept |
| Day14Tilt.WriteCell | src/bin/day14.rs:79-84 | writing one cell of the window extends the written part by one cell and uses one `O` of the count while any is left |
| Day14Tilt.WriteWindow | src/bin/day14.rs:78-85 | the inner `for` loop writes the window as count `O`s followed by dots, in column j only |
| Day14Tilt.RewriteWindow | src/bin/day14.rs:77-86 | processing one window moves column j from its state before that window to its state after |
| Day14Tilt.WeighedWindow | src/bin/day14.rs:88-90 | the load read from the grid after writing a window is the target column's load of that window |
| Day14Tilt.ProcessWindow | src/bin/day14.rs:68-91 | one window step rewrites the window and returns its load in the target column |
| Day14Tilt.WindowStep | src/bin/day14.rs:68-91 | one pass of the reversed window loop keeps the loop's state |
| Day14Tilt.WindowLoop | src/bin/day14.rs:68-91 | the `for_each` over `resh.windows(2).rev()` processes every window from the last to the first |
| Day14Tilt.LoopEnd | src/bin/day14.rs:68-91 | after all windows, column j is the target column and the summed load is its load |
| Day14Tilt.ColumnPass | src/bin/day14.rs:60-91 | one column of `perform` replaces column j by its tilt (or keeps it) and adds that column's load |
| Day14Tilt.MergeStep | src/bin/day14.rs:59-92 | processing column j moves the grid from the first j target columns to the first j + 1 |
| Day14Tilt.TargetCol | src/bin/day14.rs:59-92 | column j of the target grid is column j tilted, or kept when not tilting |
| Day14Tilt.PerformStep | src/bin/day14.rs:59-92 | one column step keeps the grid and the load consistent with the first j + 1 target columns |
| Day14Tilt.PerformTurn | src/bin/day14.rs:59-92 | one turn of the outer `for` loop over the columns |
| Day14Tilt.Perform | src/bin/day14.rs:53-94 | `perform` returns the tilted grid (or the grid itself when not tilting) and that grid's load |
| Day14Cycle.TiltGridCol | src/bin/day14.rs:59-92 | column j of the tilted grid is column j tilted |
| Day14Cycle.TiltGridIdempotent | src/bin/day14.rs:53-94 | tilting a tilted grid changes nothing |
| Day14Cycle.TiltGridMask | src/bin/day14.rs:53-94 | a tilt keeps every `#` and makes no new one |
| Day14Cycle.TiltGridClean | src/bin/day14.rs:53-94 | in a grid framed by `#`, every tilted cell is `#`, `O` or `.` |
| Day14Cycle.TiltGood | src/bin/day14.rs:53-94 | tilting a framed grid keeps its frame and its `#` cells and leaves only `#`, `O` and `.` |
| Day14Cycle.RotateGood | src/bin/day14.rs:34-51 | rotating a clean framed h × w grid gives a clean framed w × h grid with the `#` mask rotated too |
| Day14Cycle.RoundGood | src/bin/day14.rs:97-100 | one tilt-then-rotate round keeps the grid clean and framed, with the `#` mask rotated |
| Day14Cycle.CycleGood | src/bin/day14.rs:96-103 | a `cycle` gives a clean framed grid of the same shape |
| Day14Cycle.CycleMask | src/bin/day14.rs:96-103 | a `cycle` keeps every `#` where it was |
| Day14Cycle.CycleNGood | src/bin/day14.rs:145-147 | any number of cycles keeps the shape and the frame |
| Day14Cycle.CycleNMask | src/bin/day14.rs:145-147 | any number of cycles keeps every `#` where it was |
| Day14Cycle.CycleNClean | src/bin/day14.rs:145-147 | after at least one cycle every cell is `#`, `O` or `.` |
| Day14Cycle.ORowMember | src/bin/day14.rs:152-156 | the positions listed for a row are exactly its `O` cells |
| Day14Cycle.ORowsMember | src/bin/day14.rs:149-157 | the positions listed for the first n rows are exactly their `O` cells |
| Day14Cycle.OVecMember | src/bin/day14.rs:149-157 | `o_vector` lists (i, j) exactly when cell (i, j) is an `O` |
| Day14Cycle.SameOVec | src/bin/day14.rs:149-160 | two clean grids of one shape and one `#` mask with equal `o_vector`s are equal |
| Day14Cycle.CycledOVec | src/bin/day14.rs:159-160 | equal `o_vector`s after a and b cycles mean equal grids, so the cycle search compares states correctly |
| Day14Cycle.RowsColsO | src/bin/day14.rs:72-75 | counting `O`s by rows or by columns gives the same number |
| Day14Cycle.TiltGridKeepsO | src/bin/day14.rs:53-94 | a tilt keeps the number of `O`s of the grid |
| Day14Cycle.CountReverse | src/bin/day14.rs:34-51 | reversing a row keeps its number of `O`s |
| Day14Cycle.RotateKeepsO | src/bin/day14.rs:34-51 | a rotation keeps the number of `O`s |
| Day14Cycle.RoundKeepsO | src/bin/day14.rs:97-100 | a round keeps the number of `O`s |
| Day14Cycle.CycleKeepsO | src/bin/day14.rs:96-103 | a cycle keeps the number of `O`s |
| Day14.Parse | src/bin/day14.rs:23-32 | one row per line, each the line's characters as bytes |
| Day14.Wall | src/bin/day14.rs:111-112 | the added top and bottom rows are m `#` cells |
| Day14.Border | src/bin/day14.rs:114-117 | each row gains a `#` at both ends and keeps its cells in between |
| Day14.PadLines | src/bin/day14.rs:109-117 | the padding loop adds the `#` rows and the `#` ends |
| Day14.PadWide | src/bin/day14.rs:109-119 | the padded grid lets `perform` index every column exactly when no line is shorter than the first |
| Day14.PadRow | src/bin/day14.rs:109-117 | row i of the padded grid is the wall or input row i - 1, bordered |
| Day14.PadRect | src/bin/day14.rs:109-117 | padding lines of one width gives an (h + 2) × (m + 2) grid |
| Day14.PadTopBottom | src/bin/day14.rs:110-112 | the first and last padded rows are all `#` |
| Day14.PadGood | src/bin/day14.rs:128-135 | padding lines of one width gives a grid framed by `#` |
| Day14.RangeLoadSplit | src/bin/day14.rs:88-90 | the load of a stretch is additive over adjacent stretches |
| Day14.WindowLoadRange | src/bin/day14.rs:88-90 | a window's load is the sum of n - 1 - i over its `O` cells i |
| Day14.WindowsLoadRange | src/bin/day14.rs:68-91 | the summed window loads are the load of everything between the first and the last `#` |
| Day14.FramedHashes | src/bin/day14.rs:62-66 | in a column framed by `#`, `resh` starts at 0 and ends at the last cell |
| Day14.FramedColLoad | src/bin/day14.rs:68-91 | in a framed column the window loads sum to the column's full north load |
| Day14.FramedColumn | src/bin/day14.rs:59-92 | each column of a framed grid carries its full north load |
| Day14.FramedLoadCols | src/bin/day14.rs:59-92 | on a framed grid, the load of the first k columns is the sum of their north loads |
| Day14.FramedLoad | src/bin/day14.rs:53-94 | on a framed grid, `perform`'s load is the total north load of all `O` cells |
| Day14.Part1 | src/bin/day14.rs:105-122 | the answer is the load of the padded grid tilted north; it is missing exactly when there is no line or a line is shorter than the first |
| Day14.Part1Meaning | src/bin/day14.rs:105-122 | for lines of one width, the answer is the sum of north loads of the tilted grid, which holds as many `O`s as the input |
| Day14.Cycle | src/bin/day14.rs:96-103 | `cycle` is four rounds of tilting north and rotating |
| Day14.NewIndex | src/bin/day14.rs:162-165 | the jump lands after the current iteration and at most at the billionth, within one cycle length of it, and a whole number of cycle lengths after the first repeat |
| Day14.JumpFacts | src/bin/day14.rs:163 | the integer division puts the jump within one cycle length below the target |
| Day14.Part2 | src/bin/day14.rs:124-182 | the answer is the north load of the padded grid after a billion cycles; it is missing exactly when there is no line or the lines differ in width |
| Day14.Turn | src/bin/day14.rs:146-147 | one loop turn performs the next cycle and reads its load |
| Day14.Spin | src/bin/day14.rs:137-181 | the cycle-detecting loop, with its jump, returns the load after exactly a billion cycles |
| Day14.Skip | src/bin/day14.rs:159-169 | when the `o_vector` repeats, the jump lands on an iteration whose grid equals the current one |
| Day14.JumpLands | src/bin/day14.rs:159-169 | a jump by a multiple of the cycle length from the repeated state lands on the same grid |
| Day14.Part2KeepsO | src/bin/day14.rs:145-147 | every number of cycles keeps the number of `O`s of the padded grid |
| Day15.Byte | src/bin/day15.rs:40-77 | `c as u8` keeps a character's low eight bits, a value below 256 |
| Day15.Hash | src/bin/day15.rs:39-42 | the HASH of a step is below 256, and 0 for the empty step |
| Day15.HashConcat | src/bin/day15.rs:39-42 | hashing a concatenation continues the fold of the first part over the second |
| Day15.Steps | src/bin/day15.rs:21-32 | the steps exist exactly when there is a first line (otherwise `expect` panics), at least one of them, none holding a comma |
| Day15.Part1 | src/bin/day15.rs:35-45 | the answer exists exactly when there is a line, and is below 256 times the number of steps |
| Day15.SumHashesBound | src/bin/day15.rs:36-44 | the sum of the hashes is at most 255 per step |
| Day15.ParseStepRoundTrip | src/bin/day15.rs:71-82 | `name-` parses to removing `name` and `name=f` to inserting `name` with focal length f |
| Day15.ParseSteps | src/bin/day15.rs:70-82 | the steps parse exactly when each one does, one parsed step per text, in order |
| Day15.FirstWith | src/bin/day15.rs:55-62 | the slot found is the first live slot holding the label, and none is found only when no live slot holds it |
| Day15.FirstWithUnique | src/bin/day15.rs:55-62 | a live slot with the label preceded by none is the one found |
| Day15.Modify | src/bin/day15.rs:49-65 | `modify` reports whether some live slot of the box holds the label, and replaces the first such slot (with the new lens, or with a tombstone) and nothing else |
| Day15.ApplyValid | src/bin/day15.rs:70-90 | every step keeps each label in at most one live slot, and only in the box its hash names |
| Day15.ApplyAllValid | src/bin/day15.rs:70-90 | so does any sequence of steps |
| Day15.StepsValid | src/bin/day15.rs:68-90 | the empty boxes and the boxes after all the steps satisfy that invariant |
| Day15.ApplyLookup | src/bin/day15.rs:81-89 | after an insert the label's lens has the new focal length; after a remove no live slot holds the label |
| Day15.ApplyFrame | src/bin/day15.rs:76-89 | a step changes only the box its label hashes to |
| Day15.Live | src/bin/day15.rs:94 | the live lenses of a box are at most as many as its slots |
| Day15.LiveRemove | src/bin/day15.rs:87-89 | leaving a tombstone deletes the label from the box's live lenses, as removing the lens would |
| Day15.LiveInsert | src/bin/day15.rs:84-86 | replacing the first lens with the label, or appending when there is none, puts the lens in place or at the end of the live lenses |
| Day15.ApplySimulates | src/bin/day15.rs:70-90 | box by box, the tombstone table's live lenses follow the reference table that deletes and inserts lenses |
| Day15.PowerOfLive | src/bin/day15.rs:92-98 | the focusing power depends only on each box's live lenses |
| Day15.RunStep | src/bin/day15.rs:71-89 | one loop turn applies the step to the boxes in place |
| Day15.Power | src/bin/day15.rs:92-98 | the closing double loop computes the focusing power of the boxes |
| Day15.AddBoxPower | src/bin/day15.rs:95-97 | the inner loop adds (1 + box) × (1 + slot) × focal length over the box's live lenses |
| Day15.StepsNext | src/bin/day15.rs:70-90 | parsing and applying one more step extends the loop's state by that step |
| Day15.Part2 | src/bin/day15.rs:48-101 | the answer is the focusing power after applying all the parsed steps from empty boxes, missing when a step does not parse |
| Day15.EmptyBoxes | src/bin/day15.rs:68 | the 256 boxes start empty |
| Day16.MirrorsInvolutive | src/bin/day16.rs:89-102 | each mirror undoes itself and never sends a beam straight on |
| Day16.TurnFacts | src/bin/day16.rs:71-104 | `.` passes a beam on; a splitter met on its flat side sends it both perpendicular ways and met end-on passes it; a mirror turns it by a right angle; any other character panics |
| Day16.LeastUnique | src/bin/day16.rs:44-108 | the set of beam states reached from a start is well defined: there is at most one least closed set |
| Day16.GridCellsCount | src/bin/day16.rs:45-46 | an n by m grid has n * m tiles |
| Day16.RowCellsCount | src/bin/day16.rs:45-46 | a row of an n by m grid has m tiles |
| Day16.GridCellsSplit | src/bin/day16.rs:45-46 | the tiles of n rows are those of the first n - 1 rows and, apart from them, the last row |
| Day16.InsidePart | src/bin/day16.rs:53-63 | the states of a closed set that lie inside the grid form a closed set too |
| Day16.EnergyBound | src/bin/day16.rs:107 | the energized count is at most n * m: the start outside the grid is never counted |
| Day16.Skip | src/bin/day16.rs:53-63 | dropping a beam that leaves the grid or repeats an entered (tile, direction) pair loses nothing reachable |
| Day16.Visit | src/bin/day16.rs:64-104 | recording a new (tile, direction) pair and queueing the beams leaving the tile keeps every recorded pair reachable and every reachable pair recorded or pending |
| Day16.Marked | src/bin/day16.rs:60-104 | recording an unseen state inside the grid and queueing its beams keeps the search invariant and grows the recorded set |
| Day16.RecordsMark | src/bin/day16.rs:60-69 | the `energized` update records exactly one more (tile, direction) pair |
| Day16.Finish | src/bin/day16.rs:52-107 | when the queue runs dry the recorded pairs are exactly the least closed set, so the map's size is the energized count |
| Day16.Doomed | src/bin/day16.rs:71-103 | a beam about to enter a bad tile lies in every closed set, so the answer is a panic |
| Day16.RecordedCells | src/bin/day16.rs:107 | the keys of `energized` are exactly the tiles of the recorded pairs |
| Day16.Pop | src/bin/day16.rs:52-105 | one pass of the queue loop keeps the search invariant and either records a new pair or shortens the queue, or panics only when the answer is a panic |
| Day16.Solve | src/bin/day16.rs:44-108 | `solve` returns the number of tiles in the least set of beam states that contains the entry and is closed under the tile rules, and panics exactly when that set reaches a bad tile or the grid is empty |
| Day16.Part1 | src/bin/day16.rs:111-117 | part 1 is the energy of the beam entering the top-left tile heading right, at most n * m |
| Day16.EdgeStartsFacts | src/bin/day16.rs:126-128 | there are 2n + 2m entries, each just outside the grid heading into it, covering every row from both sides and every column from both ends |
| Day16.EdgeStartsInward | src/bin/day16.rs:126-128 | every entry lies just outside the grid and its first step lands inside |
| Day16.EdgeStartsCover | src/bin/day16.rs:126-128 | every row is entered from both sides and every column from both ends |
| Day16.BestOfFacts | src/bin/day16.rs:129-131 | the best fails exactly when some start panics, and otherwise is at least every start's energy and equal to one of them (or 0 without starts) |
| Day16.MaxOfNone | src/bin/day16.rs:129-131 | the maximum of the energies exists exactly when no start panics |
| Day16.MaxOfAbove | src/bin/day16.rs:129-131 | the maximum is at least every energy |
| Day16.MaxOfAttained | src/bin/day16.rs:129-131 | the maximum is one of the energies, or 0 with no starts |
| Day16.BestOfStep | src/bin/day16.rs:129-131 | one more start raises the best to its energy, or panics when that start panics |
| Day16.Best | src/bin/day16.rs:129-131 | the loop over starts computes the reference best |
| Day16.Part2 | src/bin/day16.rs:120-134 | part 2 is the best energy over all edge entries, at most n * m, and panics on an empty grid |
| Day16.BestBound | src/bin/day16.rs:129-131 | the best energy over any starts is at most n * m |
| Day17.Digit | src/bin/day17.rs:39 | a character's byte minus `b'0'` is defined (no `u8` underflow panic) exactly when the byte is at least 48, and is then that difference |
| Day17.ParseRow | src/bin/day17.rs:38-40 | a line parses exactly when every character does, and then character by character |
| Day17.ParseGrid | src/bin/day17.rs:32-45 | the lines parse exactly when every line does, and then line by line |
| Day17.MovesMeaning | src/bin/day17.rs:64-96 | the `filter_map` over the four directions yields exactly the allowed steps: never backward, never straight past the streak limit, a turn jumping `MIN_STEPS` cells with their summed loss, a straight step one cell, landing in the grid |
| Day17.MovesFromMeaning | src/bin/day17.rs:64-96 | the steps generated from direction ind on are exactly the allowed steps in those directions |
| Day17.MoveForMeaning | src/bin/day17.rs:64-95 | the step generated for one direction is exactly the allowed step in that direction |
| Day17.TurnLossInside | src/bin/day17.rs:82-87 | summing the cells of a turn never indexes outside a rectangular grid when both ends lie in it |
| Day17.ShiftBetween | src/bin/day17.rs:82-87 | the cells summed by a turn lie between its start and its end |
| Day17.MovesInside | src/bin/day17.rs:64-96 | on a rectangular grid, generating the steps from a cell inside never panics |
| Day17.MovesFromInside | src/bin/day17.rs:64-96 | the same from direction ind on |
| Day17.NextStreakBounds | src/bin/day17.rs:99-103 | the new streak is one more when going straight and `MIN_STEPS` after a turn, and stays within `MIN_STEPS..=MAX_STEPS` |
| Day17.Top | src/bin/day17.rs:52-60 | the popped entry is one that no other queued entry pops before (least loss, then least streak, then greatest position and direction) |
| Day17.Pop | src/bin/day17.rs:60 | `prio.pop()` returns that entry and the queue without it |
| Day17.FindBest | src/bin/day17.rs:105-113 | the inner search returns whether some recorded loss for streaks `MIN_STEPS..=streak` is no better than the new loss |
| Day17.FoundMeaning | src/bin/day17.rs:105-113 | that search never panics while the streak is at most `MAX_STEPS`, and it succeeds exactly when such a record exists |
| Day17.RelaxMeaning | src/bin/day17.rs:98-124 | relaxing a step panics exactly when it lands beyond the table's width; when a no-worse record exists nothing changes; otherwise the new loss is recorded at the new streak and the entry is queued |
| Day17.RelaxSteps | src/bin/day17.rs:98-125 | the `for` loop relaxes every generated step in order |
| Day17.RelaxAllNone | src/bin/day17.rs:98-125 | a panic while relaxing one step ends the loop |
| Day17.RunRound | src/bin/day17.rs:60-126 | with a nonempty queue, the loop is one round followed by the rest of the loop |
| Day17.Search | src/bin/day17.rs:60-126 | the `while let` loop runs the rounds until the queue is empty, within the round bound |
| Day17.RoundBounded | src/bin/day17.rs:60-126 | on a rectangular grid a round never panics, and it keeps every queued entry inside the grid with a streak within bounds |
| Day17.RelaxAllBounded | src/bin/day17.rs:98-125 | relaxing allowed steps keeps the queue inside the grid with streaks within bounds |
| Day17.ReachedStep | src/bin/day17.rs:98-124 | an allowed step from the end of a legal route extends it |
| Day17.RelaxAllSound | src/bin/day17.rs:98-125 | relaxing keeps every queued entry and every recorded loss the loss of some legal route |
| Day17.RoundSound | src/bin/day17.rs:60-126 | a round keeps the search sound |
| Day17.RunSound | src/bin/day17.rs:60-126 | when the loop ends, every recorded loss is the loss of a legal route |
| Day17.RunStep | src/bin/day17.rs:60-126 | a finished loop with a nonempty queue took one sound round first |
| Day17.CornerLosses | src/bin/day17.rs:128-136 | the losses listed are exactly those recorded at the corner for some streak and direction |
| Day17.AnswerMeaning | src/bin/day17.rs:128-139 | an answer exists exactly when some loss is recorded at the corner, and it is the least such loss minus the top-left cell |
| Day17.Solve | src/bin/day17.rs:54-140 | `solve` is the loop followed by the answer extraction |
| Day17.SeededFrom | src/bin/day17.rs:154-178 | every seeded slot holds one of the seeds |
| Day17.SeededSound | src/bin/day17.rs:154-178 | the seeded search starts sound |
| Day17.AnswerIsRoute | src/bin/day17.rs:54-140 | the answer plus the top-left cell is the loss of a legal route from a seed to the corner |
| Day17.SoundAnswer | src/bin/day17.rs:128-139 | an answer read from a sound table is the loss of a legal route |
| Day17.Part1 | src/bin/day17.rs:142-158 | with streaks 1..=3 from the top-left cell heading right, the answer is the search's answer and is the loss of a legal route to the corner; missing when parsing panics or the first line is empty |
| Day17.Part2 | src/bin/day17.rs:160-181 | with streaks 4..=10 from the two seeds five cells along the top row and the left column, the same, and missing when the grid is too small for the seeds |
| Day17.Run | src/bin/day17.rs:60-126 | the `while let` loop until the queue is empty, within a round bound; Day17.RunRound and Day17.Search state it round by round |
| Day18.ParseStep1 | src/bin/day18.rs:35-47 | a parsed line has at least two words; its direction is the first letter's unit vector and its length the second word's integer value |
| Day18.ParseStep1Letters | src/bin/day18.rs:36-47 | "L n colour" reads back as (direction of L, n) for each of U, D, R, L and every integer n |
| Day18.ColourFields | src/bin/day18.rs:64-71 | a field "(#hhhhhd)" whose first two characters take two bytes and whose last is ASCII decodes to the length written by the five hex digits and the direction R, D, L, U selected by the sixth for 0..3; a sixth digit above 3 panics (None) |
| Day18.ParseAll | src/bin/day18.rs:33-49 | the plan is the per-line parse of every line, and None exactly when some line panics |
| Day18.WalkPerimeter | src/bin/day18.rs:82 | the perimeter accumulated is the sum of the step lengths |
| Day18.WalkEnd | src/bin/day18.rs:83 | the final corner is the sum of length x direction over the steps, so a closed plan ends at (0, 0) |
| Day18.WalkShoelace | src/bin/day18.rs:79-88 | the fold visits the plan's corners and its accumulated value is the final corner's row x column minus the cross-product shoelace sum of the corners |
| Day18.SolveClosed | src/bin/day18.rs:78-91 | for a closed plan the answer is Pick's count: the absolute shoelace sum / 2 + perimeter / 2 (rounding toward zero) + 1 |
| Day18.Rectangle | src/bin/day18.rs:78-91 | a closed w x h rectangle gives (w + 1)(h + 1) |
| Day18.Part1 | src/bin/day18.rs:94-96 | None exactly when some line fails to parse; otherwise `solve` of the letter plan |
| Day18.Part2 | src/bin/day18.rs:98-100 | None exactly when some colour field fails to parse; otherwise `solve` of the colour plan |
| Day18.WalkPush | src/bin/day18.rs:79-88 | folding one more step onto the plan folds it onto the walk so far |
| Day18.RectangleWalk | src/bin/day18.rs:79-88 | the w by h rectangle walks back to the origin with perimeter 2w + 2h and doubled area 2wh |
| Day18.MoveAlong | src/bin/day18.rs:83 | a step moves the corner by its length along its direction |
| Day18.WordsSpaced | src/bin/day18.rs:36-38 | a line of three space-separated words gives its first two words back |
| Day18.ParseColour | src/bin/day18.rs:64-71 | a decoded colour field names one of R, D, L, U; the cuts are made at UTF-8 byte offsets, so a cut inside a character panics (Day18.ColourWideLast, Day18.ColourFields) |
| Day18.ParseStep2 | src/bin/day18.rs:54-73 | a line decodes only when it has a third word, and its direction is one of the table's |
| Day18.Solve | src/bin/day18.rs:78-91 | `solve`: the absolute doubled area / 2 + perimeter / 2 + 1, with `i128` division; Day18.SolveClosed proves it is Pick's count for a closed plan |
| Day18.ColourInner | src/bin/day18.rs:64 | the inner text `&colour[2..(colour.len() - 1)]`, cut at byte offsets |
| Day18.ParseInner | src/bin/day18.rs:65-67 | the five length bytes as an `i128` and the rest as a direction index; a decoded step names one of R, D, L, U |
| Day18.ColourWideLast | src/bin/day18.rs:64 | a colour field whose last character takes more than one byte panics: the slice ends inside that character |
| Day18.ColourExampleWideLast | src/bin/day18.rs:64 | "(#70c710é" panics, where a cut by characters would have read a step |
| Day18.ColourExampleWideFirst | src/bin/day18.rs:64-67 | "é70c710)" decodes to R 0x70c71: the two-byte first character stands for the two dropped bytes |
| Day19.Index | src/bin/day19.rs:45-54 | every category has an index below 4 |
| Day19.IndexInjective | src/bin/day19.rs:45-54 | distinct categories have distinct indices, so the four ranges never alias |
| Day19.ParsePart | src/bin/day19.rs:31-43 | a category name parses exactly when it is `x`, `m`, `a` or `s`; anything else fails the `assert!` or is unreachable |
| Day19.ParsePartName | src/bin/day19.rs:31-43 | each category's name parses back to it |
| Day19.ReverseInvolution | src/bin/day19.rs:70-86 | reversing a rule twice gives it back, and reversing keeps its category and target |
| Day19.ReverseFires | src/bin/day19.rs:70-131 | a rule's reverse fires on exactly the ratings the rule does not fire on |
| Day19.ApplyRuleMembership | src/bin/day19.rs:99-131 | `apply_rule` keeps exactly the ratings of the range on which the rule fires, and gives nothing when there are none |
| Day19.ApplyRuleEmpty | src/bin/day19.rs:99-118 | `apply_rule` gives nothing exactly when the rule fires on no rating of the range, and otherwise a non-empty range |
| Day19.SplitCovers | src/bin/day19.rs:268-282 | a rating of the range lands in exactly one of the rule's piece and its reverse's piece |
| Day19.SplitWidths | src/bin/day19.rs:268-282 | the widths of the two pieces add up to the range's width |
| Day19.ConditionRoundTrip | src/bin/day19.rs:160-183 | a condition `p<v` or `p>v` parses back to the rule it was written from |
| Day19.ConditionSymbols | src/bin/day19.rs:160-172 | a condition holds its own comparison character and not the other, so exactly one of the two branches fires |
| Day19.SplitRuleText | src/bin/day19.rs:155-159 | a rule's text splits at `:` into its condition and its target |
| Day19.ParseEntryRoundTrip | src/bin/day19.rs:154-187 | a rule written as `p<v:next` or `p>v:next` parses back to exactly that rule |
| Day19.ParseFallback | src/bin/day19.rs:184-186 | an entry without `:` is the workflow's fallback target |
| Day19.ParseEntries | src/bin/day19.rs:154-187 | one parsed entry per comma-separated piece |
| Day19.ParseWorkflows | src/bin/day19.rs:145-190 | the loop over the first block inserts one workflow per line, a later line for a name replacing an earlier one |
| Day19.ParseItems | src/bin/day19.rs:192-208 | the loop over the second block gives one item per line, in order |
| Day19.ParseInput | src/bin/day19.rs:133-211 | `parse_input` gives the workflow map and the item list, and panics when a block or a piece is missing or malformed |
| Day19.FirstFiring | src/bin/day19.rs:223-227 | the rule chosen is the first one that fires on the item, and no rule is chosen only when none fires |
| Day19.RouteFirstFiring | src/bin/day19.rs:217-232 | a workflow sends the item to the target of its first firing rule, or to its fallback when none fires |
| Day19.AcceptsFuel | src/bin/day19.rs:217-232 | a verdict reached within a step bound stays the same with a larger bound |
| Day19.RouteFuel | src/bin/day19.rs:222-228 | the same for the rules of one workflow |
| Day19.TotalAcceptedNonNegative | src/bin/day19.rs:234-240 | with non-negative ratings the total is non-negative, and 0 when no item is accepted |
| Day19.Part1 | src/bin/day19.rs:214-241 | the answer is the sum of the ratings of the items accepted from `in` over the parsed input |
| Day19.VolumeSplit | src/bin/day19.rs:255-282 | splitting one category's range into two pieces splits the number of combinations in two |
| Day19.VolumePositive | src/bin/day19.rs:255-257 | a box of non-empty ranges holds at least one combination |
| Day19.CountBounded | src/bin/day19.rs:249-292 | the count is between 0 and the number of combinations in the box |
| Day19.CountRulesBounded | src/bin/day19.rs:264-286 | the same for the rules of one workflow |
| Day19.DfsRule | src/bin/day19.rs:264-283 | one turn of the `for` loop adds the count of the firing piece and narrows the current box to the other piece; `unreachable!` when the other piece is empty |
| Day19.Dfs | src/bin/day19.rs:249-292 | `dfs` returns the count of accepted combinations of the box |
| Day19.VolumeFactor | src/bin/day19.rs:255-277 | the number of combinations is one category's width times the product of the others |
| Day19.VolumeAfter | src/bin/day19.rs:276-277 | dividing by the old width and multiplying by the new one gives the number of combinations of the narrowed box |
| Day19.FullBox | src/bin/day19.rs:294-315 | the starting box has every category from 1 to 4000, 4000^4 combinations |
| Day19.Part2 | src/bin/day19.rs:244-318 | the answer is the count from `in` over the full box, between 0 and 4000^4 |
| Day19.Accepts | src/bin/day19.rs:217-232 | the part 1 `dfs`, panicking on a missing part and bounded by a step count; Day19.AcceptsFuel proves the verdict does not depend on the bound once reached |
| Day19.Count | src/bin/day19.rs:249-292 | the part 2 `dfs` over a box; Day19.CountBounded bounds it by the box's volume and Day19Tally.CountTally proves it counts exactly the points `Accepts` accepts |
| Day19Tally.ToItemAt | src/bin/day19.rs:196-207 | a point of the box read as an item rates every category by its coordinate |
| Day19Tally.TallyFrame | src/bin/day19.rs:255-257 | the count over the remaining categories ignores the ranges of categories already fixed |
| Day19Tally.TallyEmpty | src/bin/day19.rs:255-257 | a box with an empty category holds no point |
| Day19Tally.TallySame | src/bin/day19.rs:249-292 | two predicates that agree on the box's points count the same |
| Day19Tally.TallyConst | src/bin/day19.rs:290 | a predicate constant on the points counts all of them or none, as a non-workflow leaf does |
| Day19Tally.VolumeFromBox | src/bin/day19.rs:255-257 | the product of the widths of a box is its number of points |
| Day19Tally.TallySplit | src/bin/day19.rs:268-282 | cutting one category of the box in two splits the number of points satisfying a predicate in two |
| Day19Tally.TallySplitHere | src/bin/day19.rs:268-282 | the same when the cut category is the next one to fix |
| Day19Tally.TallySplitLater | src/bin/day19.rs:268-282 | the same when the cut category is fixed later |
| Day19Tally.Cut | src/bin/day19.rs:100-117 | the cut point of a rule lies within the range, or the range is empty |
| Day19Tally.Pieces | src/bin/day19.rs:268-282 | the firing piece is what `apply_rule` keeps, the other piece is what the reverse keeps, and each holds only ratings on which the rule fires, or does not |
| Day19Tally.RouteStep | src/bin/day19.rs:223-228 | a point goes to the first rule's target when it fires and to the remaining rules otherwise |
| Day19Tally.CountTally | src/bin/day19.rs:249-292 | the count of part 2 from a workflow is exactly the number of points of the box that the part 1 walk from that workflow accepts |
| Day19Tally.CountRulesTally | src/bin/day19.rs:264-286 | the same for the remaining rules of a workflow |
| Day19Tally.PiecesSplit | src/bin/day19.rs:268-282 | the firing piece and the other piece split a box's count in two |
| Day19Tally.StaySame | src/bin/day19.rs:275-283 | where the first rule does not fire, the remaining rules decide |
| Day19Tally.FireSame | src/bin/day19.rs:268-273 | where the first rule fires, its target decides |
| Day20.ParseNode | src/bin/day20.rs:28-50 | `parse_node` panics (None) exactly on an empty name |
| Day20.ParseNodeText | src/bin/day20.rs:28-50 | every non-empty module text parses to a freshly created module that writes back as the same text |
| Day20.NodeTextParse | src/bin/day20.rs:28-50 | every freshly created module, written out and parsed, comes back unchanged |
| Day20.RememberAt | src/bin/day20.rs:145-147 | a pulse updates exactly the first memory entry of its sender and no other; with no entry nothing changes |
| Day20.FireKeepsShape | src/bin/day20.rs:133-152 | processing a pulse never renames a module, changes its kind, or changes the inputs of a conjunction or their order |
| Day20.FireFlipFlop | src/bin/day20.rs:136-143 | a flip-flop ignores high pulses; a low pulse toggles it and it sends its new state |
| Day20.FireConjunction | src/bin/day20.rs:144-149 | a conjunction sends low if and only if it now remembers high from every input, and high if and only if some input is remembered low |
| Day20.Process | src/bin/day20.rs:133-152 | the search-and-update of the memory and the all-high scan compute the reference behaviour of a module |
| Day20.DeliverFacts | src/bin/day20.rs:187-195 | each delivery counts exactly one pulse, by its level, keeps every module's shape, and queues only pulses from the receiver to its own outputs |
| Day20.Settle | src/bin/day20.rs:187-196 | running the queue dry leaves it empty, never lowers a count, and counts at least every pulse that was queued |
| Day20.Press | src/bin/day20.rs:184-197 | a press counts at least the button's own low pulse |
| Day20.Presses | src/bin/day20.rs:184-197 | k presses count at least k low pulses |
| Day20.PressesStuck | src/bin/day20.rs:184-197 | once a press runs out of its delivery budget, no number of further presses succeeds |
| Day20.DeliverStep | src/bin/day20.rs:187-195 | popping the front pulse, counting it, processing it and pushing the sends one edge at a time is one reference delivery |
| Day20.RunQueue | src/bin/day20.rs:187-196 | the `while let` loop with a delivery budget is the reference settling of one press |
| Day20.PressOnce | src/bin/day20.rs:185-196 | pushing the button pulse and running the queue is the reference press |
| Day20.Simulate | src/bin/day20.rs:181-197 | the press loop computes the reference state after the given number of presses |
| Day20.SetNode | src/bin/day20.rs:57-69 | a new name is appended at the next index and reported; a known name changes nothing; the name and index tables stay inverse to each other |
| Day20.RegisterSource | src/bin/day20.rs:75-80 | the source module is registered, and an already known one takes the declared kind in place, every other module unchanged |
| Day20.RegisterTargets | src/bin/day20.rs:82-85 | every target gets an index, no known module changes, and it fails exactly when some target name is empty |
| Day20.RegisterLine | src/bin/day20.rs:71-86 | one line of the first pass fails exactly when the line is malformed; otherwise every module it names is registered and only the source may change kind |
| Day20.OutgoingConcat | src/bin/day20.rs:90-113 | the edges declared by two runs of lines are those of the first followed by those of the second |
| Day20.IncomingConcat | src/bin/day20.rs:90-113 | a conjunction's inputs from two runs of lines are those of the first followed by those of the second |
| Day20.LinksBounded | src/bin/day20.rs:97-101 | every declared edge leads to a registered module |
| Day20.ExtendedStep | src/bin/day20.rs:99-112 | adding one target appends it to the source's edges and, for a conjunction, a low memory entry for the source |
| Day20.LinkLine | src/bin/day20.rs:90-112 | linking one line appends its targets to the source's edges and registers the source as an input of every conjunction it reaches, changing nothing else |
| Day20.ExtendedCompose | src/bin/day20.rs:90-113 | linking one run of lines and then another is linking both runs in order |
| Day20.RegisteredStep | src/bin/day20.rs:71-86 | a well-formed line keeps every earlier line's modules registered and the kind of the last declaration of each module |
| Day20.RegisterAll | src/bin/day20.rs:71-86 | the first pass succeeds exactly when every line is well formed, and then every module named anywhere has an index and takes the kind of its last declaration |
| Day20.LinkAll | src/bin/day20.rs:88-113 | the second pass gives every module exactly its declared edges and every conjunction exactly its inputs, in line order |
| Day20.ParsedPasses | src/bin/day20.rs:27-116 | the two passes together yield a network whose edges lead to registered modules, with flip-flops off and conjunction memories all low |
| Day20.ParseInput | src/bin/day20.rs:27-116 | `parse_input` panics (None) exactly when some line is malformed, and otherwise returns the network the lines declare |
| Day20.OutcomeCounts | src/bin/day20.rs:199 | the answer is a product of a low count of at least 1000 and a high count |
| Day20.Answer | src/bin/day20.rs:179-199 | the broadcaster lookup, the 1000 presses and the product compute the reference answer of a parsed network |
| Day20.Part1 | src/bin/day20.rs:176-200 | part 1 fails exactly when some line is malformed (no network); otherwise its answer is the reference outcome of the network the lines declare, within the delivery budget |
| Day20.RegisterNext | src/bin/day20.rs:71-86 | one turn of the first pass succeeds exactly when the line is well formed and extends the registration by that line |
| Day20.LinkNext | src/bin/day20.rs:90-112 | one turn of the second pass extends the edges and inputs by that line's links |
| Day20.LinkedFromScratch | src/bin/day20.rs:88-113 | starting from no edges, the second pass gives every module exactly the edges and conjunction inputs its links declare, kinds otherwise unchanged |
| Day20.RememberFroms | src/bin/day20.rs:145-147 | updating the memory never changes whose entries it holds |
| Day20.PrefixStep | src/bin/day20.rs:90-113 | one more link adds its target to its source's edges and its source to its target's inputs |
| Day20.NamedGrows | src/bin/day20.rs:57-69 | registering more names never changes the links of a line already named |
| Day20.OutgoingBounded | src/bin/day20.rs:97-101 | edges to registered modules stay edges to registered modules |
| Day21.ParseRow | src/bin/day21.rs:38-48 | a parsed row has one tile per character, `.` a plot, `S` the start and `#` a rock; any other character is unreachable |
| Day21.NextAdd | src/bin/day21.rs:69-81 | the positions one step from a set grown by one member are the old ones plus that member's walkable neighbours |
| Day21.Expand | src/bin/day21.rs:69-81 | the inner loop over `hm` fills `hm_` with exactly the walkable positions one step from some member of `hm` |
| Day21.Walk | src/bin/day21.rs:64-84 | after the outer loop `hm` holds exactly the positions where a walk of that many steps from the start can end |
| Day21.Part1 | src/bin/day21.rs:60-87 | the answer is the number of positions reachable in exactly 64 steps from the last `S`, missing when a character is unreachable |
| Day21.ReachParity | src/bin/day21.rs:64-84 | every position reached after k steps has coordinate sum of the parity of the start's plus k |
| Day21.MoveParity | src/bin/day21.rs:58-72 | each move flips the parity of the coordinate sum |
| Day21.ReachBound | src/bin/day21.rs:64-86 | after at least one step only walkable cells of the grid are reached, so the answer is at most their number |
| Day22Bricks.ParseBrick | src/bin/day22.rs:68-83 | a line `x,y,z~x,y,z` gives the brick with both corners and the line's index as id; a malformed line panics (None) |
| Day22Bricks.ParseInput | src/bin/day22.rs:62-88 | a snapshot gives one brick per line, brick k with id k |
| Day22Bricks.ParseInputIs | src/bin/day22.rs:62-88 | the snapshot parses exactly when every line parses, and brick k is line k's brick |
| Day22Bricks.ParseInputValues | src/bin/day22.rs:65-85 | each parsed brick is the brick of its own line with its own index |
| Day22Bricks.ParseInputFails | src/bin/day22.rs:65-85 | a snapshot that panics has a line that panics |
| Day22Bricks.CompareLaws | src/bin/day22.rs:93-98 | the sort key (bottom z, then top z) is antisymmetric, transitive and total, and not-after means lower-or-level |
| Day22Bricks.PermutedIds | src/bin/day22.rs:93-98 | sorting enumerated bricks keeps each id 0 .. n - 1 exactly once |
| Day22Bricks.Once | src/bin/day22.rs:83 | in an enumerated snapshot each brick occurs once |
| Day22Bricks.NotIn | src/bin/day22.rs:83 | a brick whose id lies outside a slice of places does not occur in that slice |
| Day22Bricks.IndexOf | src/bin/day22.rs:118-136 | the place of the brick with a given id, or the length when no brick has it |
| Day22Bricks.IndexOfNumbered | src/bin/day22.rs:118-136 | when the ids are a numbering, every id below the count has a place |
| Day22Bricks.IdsCount | src/bin/day22.rs:114-116 | the first n bricks of a numbering have n distinct ids |
| Day22Bricks.Range | src/bin/day22.rs:114-116 | the ids 0 .. n - 1, of which there are n |
| Day22Bricks.LineMaxIs | src/bin/day22.rs:35-39 | the inner maximum loop gives the highest column top over a row of the footprint, attained or 0 |
| Day22Bricks.AreaMaxIs | src/bin/day22.rs:34-39 | the nested maximum loops give the highest column top over the footprint's first rows, attained or 0 |
| Day22Bricks.FootMaxIs | src/bin/day22.rs:34-39 | `mx` bounds every column top under the brick and is one of them, or the ground 0 |
| Day22Bricks.Land | src/bin/day22.rs:29-59 | a landed brick keeps its id, footprint and height and rests one above the highest column top under it; it lands exactly when its bottom is above that top and it fits in the field |
| Day22Bricks.Settle | src/bin/day22.rs:110-112 | the bricks landed one after another, as many as were given |
| Day22Bricks.SettleLands | src/bin/day22.rs:110-112 | each settled brick is its brick landed on all the bricks settled before it |
| Day22Bricks.MaxDim | src/bin/day22.rs:100-105 | `max_dim` bounds every top-corner coordinate and is one of them (or 0 with no bricks) |
| Day22Bricks.Owner | src/bin/day22.rs:52-58 | the last brick filling a cell fills it and no later brick does |
| Day22Bricks.LineBelowIs | src/bin/day22.rs:121-127 | the inner loop collects exactly the ids under one row of the brick's footprint |
| Day22Bricks.AreaBelowIs | src/bin/day22.rs:121-127 | the nested loops collect exactly the ids under the footprint's first rows |
| Day22Bricks.AreaBelowFrom | src/bin/day22.rs:121-127 | every id collected lies under some cell of the footprint |
| Day22Bricks.AreaBelowHas | src/bin/day22.rs:121-127 | every brick under a cell of the footprint is collected |
| Day22Bricks.BelowIs | src/bin/day22.rs:121-127 | `lays_on` of a brick is exactly the ids found one cell under its footprint |
| Day22Bricks.Relations | src/bin/day22.rs:114-138 | `support_for` and `lays_on` are inverse, `lays_on` is what each brick rests on, and a brick is removable exactly when no brick rests on it alone |
| Day22Bricks.SettleIds | src/bin/day22.rs:49-112 | falling keeps every id and the numbering |
| Day22Bricks.SettleInside | src/bin/day22.rs:40-58 | every settled brick lies above the ground and inside the field |
| Day22Bricks.ColumnTopCovers | src/bin/day22.rs:43-47 | after settling, each column's top is at least the top of every brick over it |
| Day22Bricks.Disjoint | src/bin/day22.rs:40-58 | no two settled bricks share a cell |
| Day22Bricks.SettleInit | src/bin/day22.rs:110-112 | settling all but the last brick gives the settled bricks but the last |
| Day22Bricks.SettlePrefix | src/bin/day22.rs:110-112 | every prefix of the bricks settles to the prefix of the settled tower |
| Day22Bricks.LaysOnLower | src/bin/day22.rs:118-127 | a brick rests only on a brick whose bottom is lower than its own |
| Day22Fall.MaxUnder | src/bin/day22.rs:34-39 | the maximum loops give the highest column top under the brick, and fail exactly on a footprint outside `mxs` |
| Day22Fall.Raise | src/bin/day22.rs:43-47 | every footprint column of `mxs` gets the new top and no other column changes |
| Day22Fall.RaiseLine | src/bin/day22.rs:44-46 | one row of footprint columns gets the new top and no other column changes |
| Day22Fall.Fill | src/bin/day22.rs:52-58 | every cell of the brick gets its id and no other cell changes |
| Day22Fall.FillColumn | src/bin/day22.rs:54-56 | the brick's cells of one column get its id and no other cell changes |
| Day22Fall.Fall | src/bin/day22.rs:29-59 | `Cube::fall` lands the brick as `Land` does and keeps `mxs` the column tops and `field` the cell owners |
| Day22Fall.Placed | src/bin/day22.rs:43-58 | placing one more brick raises exactly its footprint's tops to its top and owns exactly its cells |
| Day22Fall.MaxDimOf | src/bin/day22.rs:100-105 | the `max_dim` loop computes `MaxDim` |
| Day22Fall.FallAll | src/bin/day22.rs:110-112 | the falling loop succeeds exactly when the bricks settle, leaves the settled tower in place and `field` owning its cells |
| Day22Fall.FallNext | src/bin/day22.rs:110-112 | one brick falls and the loop invariant holds for one more brick, or the whole settling panics |
| Day22Fall.SettleFails | src/bin/day22.rs:110-112 | once a prefix panics, settling all the bricks panics |
| Day22Fall.Beneath | src/bin/day22.rs:119-127 | the loops over the footprint one cell under the bottom collect exactly what the brick lays on |
| Day22Fall.AddSupported | src/bin/day22.rs:129-131 | every brick the current one lays on gains it as supported; no other entry changes |
| Day22Fall.DoneStep | src/bin/day22.rs:118 | handling the brick at place i marks exactly its id done |
| Day22Fall.BelowIds | src/bin/day22.rs:123-124 | what a brick lays on are ids of bricks |
| Day22Fall.Relate | src/bin/day22.rs:114-138 | the support loop over the bricks from the top builds `Relations` of the settled tower |
| Day22Fall.RelateNext | src/bin/day22.rs:118-136 | one turn of the support loop keeps the three vectors right for every brick already handled |
| Day22Fall.MarkSole | src/bin/day22.rs:133-135 | the one brick a brick lays on alone becomes irremovable; nothing else changes |
| Day22Fall.RelatedStep | src/bin/day22.rs:118-136 | the three updates of one turn extend the loop invariant by one brick |
| Day22Fall.LaysOnStep | src/bin/day22.rs:119-127 | setting `lays_on` of the current brick extends its invariant |
| Day22Fall.SupportStep | src/bin/day22.rs:129-131 | adding the current brick to its supports extends `support_for`'s invariant |
| Day22Fall.RemovableStep | src/bin/day22.rs:133-135 | marking a sole support extends the removability invariant |
| Day22Fall.Solve | src/bin/day22.rs:90-139 | `solve` panics on a bad line; otherwise it sorts into falling order, succeeds exactly when that order settles, and returns the relations of the settled tower |
| Day22Fall.SortBricks | src/bin/day22.rs:93-98 | the bricks are sorted by bottom then top z, as a permutation |
| Day22Fall.SolveSorted | src/bin/day22.rs:100-138 | from sorted bricks, the rest of `solve` settles them and returns their relations |
| Day22.RemovableIs | src/bin/day22.rs:133-135 | the bricks left marked are exactly those no brick rests on alone |
| Day22.CountTrueIs | src/bin/day22.rs:145 | the count of true entries is the number of places holding true |
| Day22.Part1 | src/bin/day22.rs:142-146 | part 1 is the number of bricks no brick rests on alone, in the tower the snapshot settles into |
| Day22.FallsLeast | src/bin/day22.rs:156-178 | what falls when brick i goes is the least set holding i and every brick all of whose supports are in it |
| Day22.RemovableAlone | src/bin/day22.rs:133-178 | a brick no brick rests on alone is exactly one whose removal topples nothing else |
| Day22.PowerMono | src/bin/day22.rs:161-175 | powers of a positive base grow with the exponent (the queue measure) |
| Day22.QueueWeightAppend | src/bin/day22.rs:172 | pushing a brick adds its weight to the queue's |
| Day22.Chain | src/bin/day22.rs:157-175 | the queue loop ends with `falls` equal to what topples when brick i goes |
| Day22.PopStep | src/bin/day22.rs:161-162 | popping the queue's head and adding it to `falls` keeps the loop invariant |
| Day22.SupportCount | src/bin/day22.rs:164 | a brick supports at most all the bricks |
| Day22.ChainLighter | src/bin/day22.rs:161-175 | replacing the head with the bricks it topples lowers the queue weight, so the loop ends |
| Day22.ScaledLess | src/bin/day22.rs:164-174 | fewer pushes of the same weight weigh less |
| Day22.Supported | src/bin/day22.rs:164-169 | what a brick supports is a brick, higher, that rests on it |
| Day22.Topple | src/bin/day22.rs:164-174 | the inner loop over what brick x supports pushes exactly the bricks all of whose supports have fallen, keeping the invariant, within the weight budget |
| Day22.Covers | src/bin/day22.rs:164 | the bricks x supports all sit higher than x, so each weighs at most one unit below x's weight |
| Day22.ToppleAll | src/bin/day22.rs:164-174 | the inner loop leaves nothing pending and adds at most one unit per supported brick |
| Day22.ToppleNext | src/bin/day22.rs:165-173 | one supported brick is checked: it falls and is queued when all its supports have fallen, and otherwise stays |
| Day22.WeightStep | src/bin/day22.rs:172 | a push adds at most one unit to the queue weight |
| Day22.StayStep | src/bin/day22.rs:165-170 | a brick with a support still standing stays pending no more |
| Day22.ToppleStep | src/bin/day22.rs:165-173 | a brick all of whose supports have fallen joins `falls` and the queue, keeping the invariant |
| Day22.RelationsLayered | src/bin/day22.rs:114-138 | the relations `solve` builds are inverse, and every supported brick lies higher |
| Day22.Cascade | src/bin/day22.rs:152-179 | the sum over irremovable bricks of how many others fall is the `Toppled` total |
| Day22.ToppledSkip | src/bin/day22.rs:155 | a removable brick adds nothing to the sum |
| Day22.ToppledNext | src/bin/day22.rs:155-178 | an irremovable brick adds the number of others that fall when it goes |
| Day22.Others | src/bin/day22.rs:156-178 | one brick's closure size minus itself (`falls.len() - 1`) |
| Day22.Part2 | src/bin/day22.rs:149-182 | part 2 is the sum, over the bricks that cannot be removed alone, of the number of other bricks that fall when each goes |
| Day23.ParseShow | src/bin/day23.rs:37-45 | the tile characters `#.<>v^` and the tiles correspond one to one; any other character panics |
| Day23.ParseRow | src/bin/day23.rs:35-47 | a row parses exactly when every character is a tile, into one tile per character |
| Day23.ParseGrid | src/bin/day23.rs:30-51 | the map parses exactly when every row parses, into one row per line |
| Day23.OpenMeaning | src/bin/day23.rs:75-84 | the open steps out of a cell are exactly the unit steps to the at most four neighbours inside the map that are not forest |
| Day23.OpenFromMeaning | src/bin/day23.rs:75-84 | the directions from the k-th on give exactly their unit steps to neighbours inside the map that are not forest |
| Day23.NextMeaning | src/bin/day23.rs:61-103 | `Type::next`: a precomputed entry is returned as is; otherwise forest panics, a path (or a slope when slopes are ignored) gives its open neighbours, and a slope that is obeyed gives its one downhill step |
| Day23.CellsMeaning | src/bin/day23.rs:200-222 | the cells of the `used` grid are exactly the n × m positions |
| Day23.LongestStep | src/bin/day23.rs:114-145 | away from the target, the search marks the cell and takes the best over its steps, and panics when the cell has none |
| Day23.BestOfStep | src/bin/day23.rs:128-141 | one turn of the loop: a step off the grid panics, a marked step is skipped, and an unmarked one raises the best to its distance plus the search from there |
| Day23.BestOfNone | src/bin/day23.rs:128-141 | once a turn of the loop panics, the whole loop panics |
| Day23.DfsMain | src/bin/day23.rs:106-146 | `dfs_main` computes `Longest` from the current cell and, when it returns, leaves `used` as it found it |
| Day23.Visit | src/bin/day23.rs:128-141 | the loop over the steps computes their best and leaves `used` as it found it |
| Day23.ReachesScores | src/bin/day23.rs:114-145 | a simple walk reaching the target scores its length |
| Day23.BestOfAtLeastMin | src/bin/day23.rs:120-139 | the running best never drops below `i32::MIN` |
| Day23.BestOfCovers | src/bin/day23.rs:128-141 | the best is at least every unmarked step's distance plus the search from there |
| Day23.BestOfWitness | src/bin/day23.rs:128-141 | the best is `i32::MIN` when every step is marked, and otherwise is attained by one unmarked step |
| Day23.LongestAtLeastMin | src/bin/day23.rs:114-145 | the search never returns below `i32::MIN` |
| Day23.StuckIsMin | src/bin/day23.rs:120-145 | a cell whose every step is marked is worth `i32::MIN` |
| Day23.StuckLoop | src/bin/day23.rs:128-141 | a loop over marked steps only leaves the best at `i32::MIN` |
| Day23.LongestUpper | src/bin/day23.rs:106-146 | no simple walk from the current cell scores more than the search |
| Day23.UpperStep | src/bin/day23.rs:114-145 | a non-empty walk scores no more than the search from its start |
| Day23.ExpandUpper | src/bin/day23.rs:128-141 | a walk whose first step is among the loop's steps scores no more than the loop's best |
| Day23.ScoresHead | src/bin/day23.rs:128-141 | a scoring walk starts with an admissible step and goes on scoring from there |
| Day23.ScoresTail | src/bin/day23.rs:128-141 | a scoring walk's first step lands inside the map on an unmarked cell |
| Day23.LongestAttained | src/bin/day23.rs:106-146 | with non-negative step distances, some walk scores exactly what the search returns |
| Day23.ExpandAttained | src/bin/day23.rs:118-145 | some walk through the loop's best step scores exactly the loop's best |
| Day23.ScoresCons | src/bin/day23.rs:130-139 | an admissible step followed by a scoring walk scores the step's distance more |
| Day23.LongestOptimal | src/bin/day23.rs:106-146 | with non-negative distances, the search's value is the longest score of any simple walk, and is attained |
| Day23.AnyUsedMeaning | src/bin/day23.rs:162 | `any` over the steps is false exactly when every step is inside the map and unmarked, and true only when some step is marked |
| Day23.FanoutMeaning | src/bin/day23.rs:165-170 | the fold keeps exactly the unmarked neighbours, each with distance 0 |
| Day23.AnyMarked | src/bin/day23.rs:162 | the `any` over the steps, on the `used` grid |
| Day23.Unmarked | src/bin/day23.rs:165-170 | the fold over the steps, on the `used` grid |
| Day23.FollowStep | src/bin/day23.rs:173-182 | one turn of `flat_map`: a step off the grid panics, a marked one adds nothing, and an unmarked one adds its compressed steps one farther |
| Day23.FollowNone | src/bin/day23.rs:173-182 | once a turn of `flat_map` panics, the whole `flat_map` panics |
| Day23.FollowSteps | src/bin/day23.rs:173-182 | the `flat_map` over a corridor cell's steps, leaving `used` as it found it |
| Day23.GatherSteps | src/bin/day23.rs:161-183 | the junction or corridor case of `dfs_compress`, leaving `used` as it found it |
| Day23.CompressStep | src/bin/day23.rs:154-190 | `dfs_compress` marks the cell, gathers its steps and appends the target with distance 0 when it is the target |
| Day23.DfsCompress | src/bin/day23.rs:148-191 | `dfs_compress` computes `Compress` and, when it returns, leaves `used` as it found it |
| Day23.TilesUnit | src/bin/day23.rs:82-96 | every step `next` builds from the map has distance 1 |
| Day23.CompressNonNeg | src/bin/day23.rs:148-191 | every compressed step has a non-negative distance |
| Day23.GatherNonNeg | src/bin/day23.rs:161-183 | every gathered step has a non-negative distance |
| Day23.FollowNonNeg | src/bin/day23.rs:173-182 | every step `flat_map` yields has a non-negative distance |
| Day23.BlankNonNeg | src/bin/day23.rs:201 | with no precomputed steps every step has a non-negative distance |
| Day23.RowFromMeaning | src/bin/day23.rs:226-230 | the inner loop fills a row exactly when each of its entries succeeds, with those entries |
| Day23.RowsMeaning | src/bin/day23.rs:225-231 | the outer loop fills the table row by row, and panics when some row does |
| Day23.CompressedNonNeg | src/bin/day23.rs:222-231 | the compressed table's steps, and the steps beside it, have non-negative distances |
| Day23.Part1 | src/bin/day23.rs:194-213 | part 1 is the longest score of any simple walk from (0, 1) to (n - 1, m - 2) obeying slopes, or a panic |
| Day23.CompressAll | src/bin/day23.rs:222-231 | the compression loops build `Compressed` and leave `used` clear |
| Day23.RowsNone | src/bin/day23.rs:225-231 | once a row panics, the whole table panics |
| Day23.CompressRow | src/bin/day23.rs:226-230 | the inner loop builds one row of the table and leaves `used` clear |
| Day23.RowNone | src/bin/day23.rs:226-230 | once an entry panics, the whole row panics |
| Day23.Part2 | src/bin/day23.rs:216-243 | part 2 is the longest score of any simple walk from (0, 1) to (n - 1, m - 2) over the compressed steps, ignoring slopes, or a panic |
| Day23.SearchFlat | src/bin/day23.rs:219-240 | the compression and the search of part 2 on a parsed map |
| Arith.DividesTransitive | src/bin/day8.rs:127 | divisibility is transitive |
| Arith.DividesMod | src/bin/day8.rs:94-102 | a common divisor of a and b divides b % a |
| Arith.DividesFromMod | src/bin/day8.rs:94-102 | a common divisor of a and b % a divides b |
| Arith.DividesAntisymmetric | src/bin/day8.rs:94-102 | two numbers dividing each other are equal |
| Arith.GcdPositive | src/bin/day8.rs:94-102 | the gcd of two numbers not both zero is positive |
| Arith.LcmStepIs | src/bin/day8.rs:127 | the source's `ans * x / gcd(ans, x)` is the least-common-multiple step |
| Arith.LcmLoop | src/bin/day8.rs:127 | the fold over the path lengths computes `LcmFold` |
| Arith.GcdDivides | src/bin/day8.rs:94-102 | the reference gcd of two numbers not both zero divides each of them |
| Arith.GcdGreatest | src/bin/day8.rs:94-102 | every common divisor divides the gcd, so it is the greatest common divisor |
| Arith.GcdLoop | src/bin/day8.rs:94-102 | the swap-and-reduce loop panics (None) exactly when a is non-zero and b is zero, and otherwise returns the gcd; its invariant is that the common divisors of (a, b) never change |
| Arith.LcmStep | src/bin/day8.rs:127 | ans * x / gcd(ans, x) is a positive common multiple of ans and x |
| Arith.LcmFold | src/bin/day8.rs:127 | the fold from 1 panics exactly when some length is 0 and otherwise gives a positive value |
| Arith.LcmFoldMultiple | src/bin/day8.rs:112-127 | the folded value is divisible by every path length |
| Common.Collect | src/bin/day7.rs:26-41 | collecting per-line results gives one value per line when it succeeds |
| Common.CollectUpToExact | src/bin/day7.rs:26-41 | collecting the first n results succeeds exactly when each does, keeping each at its place |
| Common.CollectUpToPrefix | src/bin/day7.rs:26-41 | collecting a prefix does not look past it |
| Common.CollectSnoc | src/bin/day7.rs:26-41 | collecting one more result extends the collection, or fails when that result fails |
| Common.Present | src/bin/day6.rs:29 | `filter_map` keeps at most as many values as there were results |
| Common.PresentMembers | src/bin/day6.rs:29 | `filter_map` keeps exactly the values present, and nothing exactly when every result is missing |
| Common.UnionAllMembers | src/bin/day3.rs:124 | a value is in the union of the sets exactly when it is in one of them |
| Common.InsertAllSome | src/bin/day8.rs:65-68 | inserting every parsed entry into a map succeeds exactly when every entry parses |
| Common.InsertAllLastWins | src/bin/day8.rs:65-68 | the map built by successive inserts holds exactly the names inserted, each with the value of its last insert |
| Common.InsertStep | src/bin/day8.rs:65-68 | one more insert overwrites or adds exactly that name |
| Common.MaxOf | src/bin/day16.rs:130 | `max()` of a non-empty sequence is one of its entries and no entry exceeds it |
| Common.MinOf | src/bin/day17.rs:133-136 | `min()` of a non-empty sequence is one of its entries and no entry is below it |
| Common.IterateNext | src/bin/day14.rs:145-178 | applying a step k + 1 times is applying it once more after k times |
| Common.IterateAdd | src/bin/day14.rs:145-178 | applying a step a + b times is applying it b times after a times |
| Common.IterateInvariant | src/bin/day14.rs:145-178 | a property every step preserves holds after any number of steps |
| Common.IterateFromOne | src/bin/day14.rs:145-178 | a preserved property holding after the first step holds after every later one |
| Common.IterateJump | src/bin/day14.rs:145-178 | once the states repeat with period len, every count a multiple of len past the repeat gives the same state |
| Common.IterateRepeat | src/bin/day14.rs:145-178 | a repeat found by the cycle search fixes the state at every later count congruent to it |
| Common.CollectExact | src/bin/day7.rs:26-41 | collecting per-line results succeeds exactly when every line succeeds, keeping each result at its place |
| Sorting.Swap | src/bin/day7.rs:135 | swapping two neighbours permutes the entries |
| Sorting.StableSwap | src/bin/day7.rs:135 | moving an entry past a strictly greater one keeps equal entries in their input order |
| Sorting.StableStop | src/bin/day7.rs:135 | an insertion that stops keeps the sorted prefix stable |
| Sorting.SwapDown | src/bin/day7.rs:135 | one swap of the insertion moves the entry one place down, keeping the invariants |
| Sorting.SplitSwap | src/bin/day7.rs:135 | a swap inside the sorted prefix keeps the later entries where they were |
| Sorting.KeysNext | src/bin/day7.rs:135 | the entry after the sorted prefix is still the one that started there |
| Sorting.Cmp | src/bin/day7.rs:139 | `cmp` answers Less exactly when a < b and Greater exactly when a > b |
| Sorting.InsertSwap | src/bin/day7.rs:135 | moving a strictly smaller entry one place down keeps the insertion invariant and keeps all entries comparable |
| Sorting.InsertStop | src/bin/day7.rs:135 | with a transitive comparator, an insertion that stops behind a not-greater entry leaves the prefix sorted |
| Sorting.Insert | src/bin/day7.rs:135 | one insertion step permutes the array, extends the sorted prefix by one, and fails only on an incomparable pair |
| Sorting.SortBy | src/bin/day7.rs:135-153 | `sort_by` permutes the entries, leaves them sorted when it finishes, fails only when two entries are incomparable and never when all are comparable |
| Sorting.SortedUnique | src/bin/day7.rs:135-153 | with a comparator that never answers Equal, two sorted permutations of the same entries are equal |
| Sorting.SortedFirst | src/bin/day7.rs:135-153 | two sorted permutations of the same entries start with the same entry |
| Sorting.SortedTail | src/bin/day7.rs:135-153 | dropping the first entry of a sorted sequence keeps it sorted and removes exactly that entry |
| Text.SplitOn | src/bin/day19.rs:146 | `split` on a set of separators gives at least one piece and no piece holds a separator |
| Text.SplitJoin | src/bin/day15.rs:27 | joining the pieces of `split` with the separator gives the text back |
| Text.JoinSplit | src/bin/day15.rs:27 | splitting pieces joined by a separator that none holds gives the pieces back |
| Text.SplitOnFirst | src/bin/day19.rs:154 | the first piece ends at the first separator, and the rest is split the same way |
| Text.SplitOnNone | src/bin/day19.rs:154 | text without a separator is a single piece |
| Text.SplitStr | src/bin/day20.rs:72 | `split` on a multi-character pattern gives at least one piece |
| Text.NonEmpty | src/bin/day4.rs:22 | dropping empty pieces keeps only non-empty ones, and no more than there were |
| Text.Words | src/bin/day4.rs:22 | `split_whitespace` gives only non-empty words |
| Text.TrimMatches | src/bin/day19.rs:198 | `trim_matches` gives a text no longer than before that neither starts nor ends with a stripped character |
| Text.Trim | src/bin/day2.rs:43 | `trim` never lengthens the text |
| Text.Find | src/bin/day1.rs:54 | `find` gives the first place the pattern occurs, and None exactly when it occurs nowhere |
| Text.FindFrom | src/bin/day1.rs:54 | the search from place i gives the first occurrence at or after i, or None when there is none |
| Text.Reverse | src/bin/day1.rs:69 | the reversed text has entry k equal to entry n - 1 - k of the original |
| Text.ByteChar | src/bin/day11.rs:25 | `c as u8` keeps a character's low byte, below 256 |
| Text.Bytes | src/bin/day11.rs:25 | a line as its bytes: the same length, each character truncated to its byte |
| Text.ByteLines | src/bin/day14.rs:28 | every line as its bytes, line for line |
| Text.NatToDecimal | src/bin/day22.rs:76 | every natural number has a decimal text of digits whose value is the number |
| Text.IntToDecimal | src/bin/day6.rs:29 | every integer has a decimal text of digits and minus signs |
| Text.NatToDecimalRoundTrip | src/bin/day22.rs:76 | `parse::<usize>` reads back the decimal text of any natural number |
| Text.IntToDecimalRoundTrip | src/bin/day6.rs:29 | `parse::<i64>` reads back the decimal text of any integer |
| Text.LastCell | src/bin/day10.rs:52-53 | the start cell recorded by the scan is the last cell holding the character, or (-1, -1) when none does |
| Text.LastIn | src/bin/day10.rs:52-53 | the last place in a row holding the character, -1 when none does |
| Text.CharBoundary | src/bin/day18.rs:64-67 | a byte offset found to be a character boundary is reached by a prefix of exactly that many UTF-8 bytes; `None` where `&str` slicing at it panics |
| Text.ByteSlice | src/bin/day18.rs:64-67 | `&s[a..b]` on byte offsets: a slice that exists is b - a bytes long |
| Text.AsciiSlice | src/bin/day18.rs:64-67 | on ASCII text, byte offsets are character indices, so the byte slice is the character slice |
| Text.BoundaryAfter | src/bin/day18.rs:64 | skipping a prefix shifts every boundary by the prefix's bytes and characters |

## Left out

- Reading the input file (`read_lines`), printing the answers and `main` are not modelled; every part takes the lines as a parameter.
- Day 24 and `src/bin/input.rs` are not part of this model.
- Integer widths: `u32`, `u64`, `usize`, `i32`, `i64` and `i128` arithmetic is unbounded here. Overflow panics and wrap-around of sums and products are not modelled. The exceptions are the ones the source relies on: the `u32` shift of day 4, the `u32::MAX` defaults of days 2 and 3, the `u32` parse bound of days 3 and 4, and the `u8` subtraction of day 17.
- Day2.Part1: the sums of game indices are unbounded, not `u32`.
- Day4.Part1: the result is pinned down only for cards without repeated numbers. With repeats, the result depends on the `HashMap` iteration order, which the model leaves unspecified. `None` is stated only as implying an over-long `u32` shift (32 or more matches); the release-mode masking of that shift is not modelled, the debug-mode panic is.
- Day5.Part1: `i64` seeds and offsets are unbounded.
- Day6.Part1: the `i64` product of the counts is unbounded.
- Day6.Part2Race: part 2 solves the quadratic with `f64` square roots, and floating point is not modelled. The model gives the concatenated race (`Part2Race`) and the exact number of winning holds of a race (`Ways`, `WaysMeaning`), not the rounded float answer.
- Day7.Part1: the `u32` winnings are unbounded.
- Day8.Walk: a walk that never reaches its goal does not terminate in the source. The model bounds it by `fuel` steps and gives `None` beyond them.
- Day8.Part2: the start nodes are visited in `HashMap` key order. The model takes that order as the parameter `order`, which must enumerate the start nodes; the least-common-multiple fold does not depend on it.
- Day10.Part1: the answer is stated as half the length of a loop that the depth-first search can record (`exists ans :: Loop(...)`), not as one fixed loop; which loop is found depends on the visiting order of the search.
- Day10.Part2: as for part 1, the count is stated for a loop the search can record.
- Day11.Part1: the `u64` sums of distances are unbounded.
- Day14.Part2: the answer is stated only for lines of equal width; input whose later lines are longer than the first gives `None` here, although the source still computes a load for it (its rotation builds new rows from the first row's width).
- Day16.Solve: the beam search's `i32` coordinates are unbounded.
- Day17.Run: the search is bounded by `fuel` rounds, and `None` stands for running out. The model proves that every recorded loss is the loss of a legal route (`RunSound`); it does not prove that the recorded loss is the least one.
- Day19.Accepts: a cycle among the workflows does not terminate in the source; the walk is bounded by `fuel` workflows.
- Day19.Count: bounded by `fuel` nested workflows in the same way. The memo table `dp` that `part2` allocates is never read or written, so it is not modelled.
- Day20.Part1: each button press delivers at most `fuel` pulses in the model; a press that would need more gives `None`.
- Day20 part 2: only the least-common-multiple fold over the cycle lengths is modelled (`Arith.LcmFold`, `Arith.GcdLoop`). The hard-coded module names and the search for each cycle length are not modelled.
- Day21 part 2 returns the constant 42 and computes nothing; it is not modelled.
- Day1.Candidates: positions are character indices. The source mixes byte offsets (`find`, `len`) with character positions (`chars().position`); they agree on ASCII lines only.
- Day3.Symbols: symbol columns are character indices. The source records byte offsets (`char_indices`), which differ after a non-ASCII symbol in the same row.
- Day10.Parse: columns are character indices. The source uses `char_indices` and `len()`, but any non-ASCII character hits `unreachable!`, so they agree on every input the source accepts.
- Day21.Part1: as for day 10, a non-ASCII character panics in the source, so character and byte positions agree on the accepted inputs.
- Day23.DfsMain: the `used` grid is proved unchanged only when the search succeeds; after a panic its contents are left unspecified.
- Day23.Unmarked: requires every step to lead inside the `used` grid. The `any` just before it (`AnyMarked`) has already checked this, and it panics otherwise.
- Day23.Part1: the `i32` distances, including the `i32::MIN` value of a stuck branch, are unbounded; sums with `i32::MIN` do not wrap.

## Findings

| source | as written | input that shows it | evidently intended | confidence | as-written member | corrected member |
|---|---|---|---|---|---|---|
| src/bin/day10.rs:62-68 | the start tile's right neighbour is looked up when `to_j <= m`, one column past the row | the one-line input `S` | `to_j < m`, so the start on the last column gets no right neighbour | not executed | Day10.StartOnLastColumn | Day10.Parse |
