/** The parts of Rust's `str` and slice API that the puzzle programs rely on,
    stated over `seq<char>`. Most of it treats a character as one unit, as the
    programs do on their ASCII inputs; where a program cuts a `str` at byte
    offsets, `Utf8Len`, `CharBoundary` and `ByteSlice` count UTF-8 bytes. Integer parsing follows `str::parse` and `from_str_radix`:
    an optional sign, then at least one digit; width overflow is not modelled. */
module Text {
  import opened Common

  // ---------------------------------------------------------------------
  // Splitting
  // ---------------------------------------------------------------------

  /** `slice::split` / `str::split` with a set of single separators: the
      pieces between separators, empty pieces included, always at least one. */
  function SplitOn<T>(s: seq<T>, seps: set<T>): (r: seq<seq<T>>)
    ensures |r| >= 1
    ensures forall k, j :: 0 <= k < |r| && 0 <= j < |r[k]| ==> r[k][j] !in seps
    decreases |s|
  {
    if s == [] then [[]]
    else
      var rest := SplitOn(s[1..], seps);
      if s[0] in seps then [[]] + rest
      else [[s[0]] + rest[0]] + rest[1..]
  }

  /** Joins pieces back with one separator between neighbours. */
  function Join<T>(pieces: seq<seq<T>>, sep: T): seq<T>
    requires |pieces| >= 1
  {
    if |pieces| == 1 then pieces[0] else pieces[0] + [sep] + Join(pieces[1..], sep)
  }

  lemma JoinCons<T>(p: seq<T>, rest: seq<seq<T>>, sep: T)
    requires |rest| >= 1
    ensures Join([p] + rest, sep) == p + [sep] + Join(rest, sep)
  {
    assert ([p] + rest)[1..] == rest;
  }

  /** Splitting on one separator loses nothing: joining the pieces with it
      gives the input back. */
  lemma {:induction false} SplitJoin<T>(s: seq<T>, sep: T)
    ensures Join(SplitOn(s, {sep}), sep) == s
    decreases |s|
  {
    if s != [] {
      SplitJoin(s[1..], sep);
      if s[0] == sep {
        SplitJoinAtSep(s, sep);
      } else {
        SplitJoinInPiece(s, sep);
      }
    }
  }

  lemma SplitJoinAtSep<T>(s: seq<T>, sep: T)
    requires s != [] && s[0] == sep && Join(SplitOn(s[1..], {sep}), sep) == s[1..]
    ensures Join(SplitOn(s, {sep}), sep) == s
  {
    var rest := SplitOn(s[1..], {sep});
    assert SplitOn(s, {sep}) == [[]] + rest;
    JoinCons([], rest, sep);
    assert s == [s[0]] + s[1..];
  }

  lemma SplitJoinInPiece<T>(s: seq<T>, sep: T)
    requires s != [] && s[0] != sep && Join(SplitOn(s[1..], {sep}), sep) == s[1..]
    ensures Join(SplitOn(s, {sep}), sep) == s
  {
    var rest := SplitOn(s[1..], {sep});
    assert SplitOn(s, {sep}) == [[s[0]] + rest[0]] + rest[1..];
  }

  /** A first piece free of separators, followed by a separator, splits off
      as the first piece. */
  lemma {:induction false} SplitOnFirst<T>(a: seq<T>, c: T, b: seq<T>, seps: set<T>)
    requires forall k :: 0 <= k < |a| ==> a[k] !in seps
    requires c in seps
    ensures SplitOn(a + [c] + b, seps) == [a] + SplitOn(b, seps)
    decreases |a|
  {
    if a == [] {
      assert a + [c] + b == [c] + b;
      assert ([c] + b)[1..] == b;
    } else {
      SplitOnFirst(a[1..], c, b, seps);
      assert (a + [c] + b)[1..] == a[1..] + [c] + b;
      assert [a[0]] + a[1..] == a;
    }
  }

  /** A piece free of separators splits into itself alone. */
  lemma {:induction false} SplitOnNone<T>(a: seq<T>, seps: set<T>)
    requires forall k :: 0 <= k < |a| ==> a[k] !in seps
    ensures SplitOn(a, seps) == [a]
    decreases |a|
  {
    if a != [] {
      SplitOnNone(a[1..], seps);
      assert [a[0]] + a[1..] == a;
    }
  }

  /** Joining separator-free pieces and splitting again gives the pieces
      back (the converse of `SplitJoin`). */
  lemma {:induction false} JoinSplit<T>(pieces: seq<seq<T>>, sep: T)
    requires |pieces| >= 1
    requires forall i, k :: 0 <= i < |pieces| && 0 <= k < |pieces[i]| ==> pieces[i][k] != sep
    ensures SplitOn(Join(pieces, sep), {sep}) == pieces
    decreases |pieces|
  {
    if |pieces| == 1 {
      SplitOnNone(pieces[0], {sep});
    } else {
      JoinSplit(pieces[1..], sep);
      SplitOnFirst(pieces[0], sep, Join(pieces[1..], sep), {sep});
      assert [pieces[0]] + pieces[1..] == pieces;
    }
  }

  function Split(s: string, sep: char): (r: seq<string>)
    ensures |r| >= 1
  {
    SplitOn(s, {sep})
  }

  /** `str::split` with a string pattern (left-most, non-overlapping matches). */
  function SplitStr(s: string, pat: string): (r: seq<string>)
    requires |pat| > 0
    ensures |r| >= 1
    decreases |s|
  {
    if |s| < |pat| then [s]
    else if s[..|pat|] == pat then [""] + SplitStr(s[|pat|..], pat)
    else
      var rest := SplitStr(s[1..], pat);
      [[s[0]] + rest[0]] + rest[1..]
  }

  /** Rust's `char::is_whitespace` (the Unicode White_Space property). */
  predicate IsWhitespace(c: char)
  {
    var n := c as int;
    (9 <= n <= 13) || n == 32 || n == 0x85 || n == 0xA0 || n == 0x1680
    || (0x2000 <= n <= 0x200A) || n == 0x2028 || n == 0x2029 || n == 0x202F
    || n == 0x205F || n == 0x3000
  }

  function NonEmpty(pieces: seq<string>): (r: seq<string>)
    ensures forall k :: 0 <= k < |r| ==> r[k] != []
    ensures |r| <= |pieces|
  {
    if pieces == [] then []
    else if pieces[0] == [] then NonEmpty(pieces[1..])
    else [pieces[0]] + NonEmpty(pieces[1..])
  }

  /** `str::split_whitespace`: the maximal runs of non-whitespace characters. */
  function Words(s: string): (r: seq<string>)
    ensures forall k :: 0 <= k < |r| ==> r[k] != []
  {
    NonEmpty(SplitOn(s, set c: char | c in s && IsWhitespace(c)))
  }

  /** `str::trim_matches` with a predicate on characters. */
  function TrimMatches(s: string, strip: set<char>): (r: string)
    ensures |r| <= |s|
    ensures r != [] ==> r[0] !in strip && r[|r| - 1] !in strip
    decreases |s|
  {
    if s == [] then s
    else if s[0] in strip then TrimMatches(s[1..], strip)
    else if s[|s| - 1] in strip then TrimMatches(s[..|s| - 1], strip)
    else s
  }

  /** `str::trim`: strips leading and trailing whitespace. */
  function Trim(s: string): (r: string)
    ensures |r| <= |s|
  {
    TrimMatches(s, set c: char | c in s && IsWhitespace(c))
  }

  /** `pat` occurs in `s` starting at index `k`. */
  predicate OccursAt(s: string, pat: string, k: int)
  {
    0 <= k && k + |pat| <= |s| && s[k..k + |pat|] == pat
  }

  /** `str::find`: the index of the first occurrence of `pat`. */
  function Find(s: string, pat: string): (r: Option<nat>)
    ensures r.Some? ==> OccursAt(s, pat, r.value)
    ensures r.Some? ==> forall k :: 0 <= k < r.value ==> !OccursAt(s, pat, k)
    ensures r.None? ==> forall k :: !OccursAt(s, pat, k)
  {
    FindFrom(s, pat, 0)
  }

  function FindFrom(s: string, pat: string, i: nat): (r: Option<nat>)
    requires i <= |s|
    ensures r.Some? ==> i <= r.value && OccursAt(s, pat, r.value)
    ensures r.Some? ==> forall k :: i <= k < r.value ==> !OccursAt(s, pat, k)
    ensures r.None? ==> forall k :: i <= k ==> !OccursAt(s, pat, k)
    decreases |s| - i
  {
    if |s| - i < |pat| then None
    else if s[i..i + |pat|] == pat then Some(i)
    else if i == |s| then None
    else FindFrom(s, pat, i + 1)
  }

  function Reverse<T>(s: seq<T>): (r: seq<T>)
    ensures |r| == |s|
    ensures forall k :: 0 <= k < |s| ==> r[k] == s[|s| - 1 - k]
  {
    if s == [] then [] else Reverse(s[1..]) + [s[0]]
  }

  /** `c as u8`: a character truncated to its low byte. */
  function ByteChar(c: char): (b: char)
    ensures b as int < 256
  {
    ((c as int) % 256) as char
  }

  function Bytes(s: string): (r: string)
    ensures |r| == |s| && forall k :: 0 <= k < |s| ==> r[k] == ByteChar(s[k])
  {
    seq(|s|, k requires 0 <= k < |s| => ByteChar(s[k]))
  }

  /** Every line as its bytes (`line.chars().map(|c| c as u8)`). */
  function ByteLines(lines: seq<string>): (r: seq<string>)
    ensures |r| == |lines| && forall i :: 0 <= i < |lines| ==> r[i] == Bytes(lines[i]) && |r[i]| == |lines[i]|
  {
    seq(|lines|, i requires 0 <= i < |lines| => Bytes(lines[i]))
  }

  // ---------------------------------------------------------------------
  // Byte offsets (`str` indexes by UTF-8 byte, not by character)
  // ---------------------------------------------------------------------

  predicate IsAscii(c: char) { (c as int) < 0x80 }

  predicate AllAscii(s: string) { forall k :: 0 <= k < |s| ==> IsAscii(s[k]) }

  /** The number of bytes a character takes in UTF-8. */
  function Utf8Width(c: char): (w: nat)
    ensures 1 <= w <= 4
    ensures w == 1 <==> IsAscii(c)
  {
    if (c as int) < 0x80 then 1
    else if (c as int) < 0x800 then 2
    else if (c as int) < 0x1_0000 then 3
    else 4
  }

  /** `str::len`: the length of a text in bytes. */
  function Utf8Len(s: string): (n: nat)
    ensures n >= |s|
  {
    if s == [] then 0 else Utf8Width(s[0]) + Utf8Len(s[1..])
  }

  /** The index of the character that starts at byte offset `b`, or `None`
      where `b` lies inside a character or past the end: the places where
      `&s[..b]` and `&s[b..]` panic. */
  function CharBoundary(s: string, b: nat): (r: Option<nat>)
    ensures r.Some? ==> r.value <= |s| && r.value <= b
  {
    if b == 0 then Some(0)
    else if s == [] || Utf8Width(s[0]) > b then None
    else
      match CharBoundary(s[1..], b - Utf8Width(s[0]))
      case None => None
      case Some(i) => Some(i + 1)
  }

  /** The characters before a boundary take exactly its offset in bytes. */
  lemma {:induction false} BoundaryBytes(s: string, b: nat)
    requires CharBoundary(s, b).Some?
    ensures Utf8Len(s[..CharBoundary(s, b).value]) == b
  {
    if b > 0 {
      var i := CharBoundary(s[1..], b - Utf8Width(s[0])).value;
      BoundaryBytes(s[1..], b - Utf8Width(s[0]));
      assert s[..i + 1] == [s[0]] + s[1..][..i];
      assert ([s[0]] + s[1..][..i])[1..] == s[1..][..i];
    }
  }

  /** `&s[a..b]` on byte offsets; `None` where Rust panics (a cut inside a
      character, past the end, or `a > b`). */
  function ByteSlice(s: string, a: nat, b: nat): (r: Option<string>)
    ensures r.Some? ==> Utf8Len(r.value) == b - a
  {
    if a > b then None
    else
      match CharBoundary(s, a)
      case None => None
      case Some(i) =>
        match CharBoundary(s[i..], b - a)
        case None => None
        case Some(j) => BoundaryBytes(s[i..], b - a); Some(s[i..][..j])
  }

  lemma {:induction false} Utf8LenAppend(s: string, t: string)
    ensures Utf8Len(s + t) == Utf8Len(s) + Utf8Len(t)
  {
    if s != [] {
      assert (s + t)[1..] == s[1..] + t;
      Utf8LenAppend(s[1..], t);
    } else {
      assert s + t == t;
    }
  }

  lemma {:induction false} AsciiLen(s: string)
    requires AllAscii(s)
    ensures Utf8Len(s) == |s|
  {
    if s != [] {
      AsciiLen(s[1..]);
    }
  }

  /** Skipping a prefix `p` shifts every boundary by `p`'s length in bytes
      and characters. */
  lemma {:induction false} BoundaryAfter(p: string, t: string, b: nat)
    ensures CharBoundary(p + t, Utf8Len(p) + b)
         == match CharBoundary(t, b) case None => None case Some(i) => Some(|p| + i)
  {
    if p == [] {
      assert p + t == t;
    } else {
      assert (p + t)[0] == p[0];
      assert (p + t)[1..] == p[1..] + t;
      BoundaryAfter(p[1..], t, b);
    }
  }

  /** On ASCII text a byte offset is a character index. */
  lemma {:induction false} AsciiBoundary(s: string, b: nat)
    requires AllAscii(s) && b <= |s|
    ensures CharBoundary(s, b) == Some(b)
  {
    if b > 0 {
      AsciiBoundary(s[1..], b - 1);
    }
  }

  lemma AsciiSlice(s: string, a: nat, b: nat)
    requires AllAscii(s) && a <= b <= |s|
    ensures ByteSlice(s, a, b) == Some(s[a..b])
  {
    AsciiBoundary(s, a);
    assert AllAscii(s[a..]) by {
      forall k | 0 <= k < |s[a..]| ensures IsAscii(s[a..][k]) {
        assert s[a..][k] == s[a + k];
      }
    }
    AsciiBoundary(s[a..], b - a);
    assert s[a..][..b - a] == s[a..b];
  }

  // ---------------------------------------------------------------------
  // Numbers
  // ---------------------------------------------------------------------

  predicate IsDigit(c: char)
  {
    '0' <= c <= '9'
  }

  predicate AllDigits(s: string)
  {
    forall k :: 0 <= k < |s| ==> IsDigit(s[k])
  }

  function DigitValue(c: char): (d: nat)
    requires IsDigit(c)
    ensures d < 10
  {
    (c as int) - ('0' as int)
  }

  /** The value of a string of decimal digits. */
  function DecimalValue(s: string): nat
    requires AllDigits(s)
  {
    if s == [] then 0 else 10 * DecimalValue(s[..|s| - 1]) + DigitValue(s[|s| - 1])
  }

  /** `u32::from_str` and friends: an optional `+`, then one or more digits. */
  function ParseNat(s: string): (r: Option<nat>)
    ensures r.Some? ==> |s| > 0
  {
    var body := if |s| > 0 && s[0] == '+' then s[1..] else s;
    if |body| > 0 && AllDigits(body) then Some(DecimalValue(body)) else None
  }

  /** `i64::from_str` and friends: an optional `+` or `-`, then one or more digits. */
  function ParseInt(s: string): (r: Option<int>)
  {
    if |s| > 0 && s[0] == '-' then
      var body := s[1..];
      if |body| > 0 && AllDigits(body) then Some(0 - DecimalValue(body)) else None
    else
      match ParseNat(s)
      case None => None
      case Some(n) => Some(n)
  }

  predicate IsHexDigit(c: char)
  {
    IsDigit(c) || 'a' <= c <= 'f' || 'A' <= c <= 'F'
  }

  function HexDigitValue(c: char): (d: nat)
    requires IsHexDigit(c)
    ensures d < 16
  {
    if IsDigit(c) then DigitValue(c)
    else if 'a' <= c <= 'f' then (c as int) - ('a' as int) + 10
    else (c as int) - ('A' as int) + 10
  }

  function HexValue(s: string): nat
    requires forall k :: 0 <= k < |s| ==> IsHexDigit(s[k])
  {
    if s == [] then 0 else 16 * HexValue(s[..|s| - 1]) + HexDigitValue(s[|s| - 1])
  }

  /** `usize::from_str_radix(s, 16)`: an optional `+`, then hex digits. */
  function ParseHexNat(s: string): (r: Option<nat>)
  {
    var body := if |s| > 0 && s[0] == '+' then s[1..] else s;
    if |body| > 0 && (forall k :: 0 <= k < |body| ==> IsHexDigit(body[k]))
    then Some(HexValue(body)) else None
  }

  /** `i128::from_str_radix(s, 16)`: an optional `+` or `-`, then hex digits. */
  function ParseHexInt(s: string): (r: Option<int>)
  {
    if |s| > 0 && s[0] == '-' then
      match ParseHexNat(s[1..])
      case Some(n) => if |s| > 1 && s[1] == '+' then None else Some(0 - n)
      case None => None
    else
      match ParseHexNat(s)
      case None => None
      case Some(n) => Some(n)
  }

  /** The decimal digits of a natural number, without leading zeros. */
  function NatToDecimal(n: nat): (r: string)
    ensures |r| >= 1 && AllDigits(r)
    ensures DecimalValue(r) == n
  {
    var last := ['0' + (n % 10) as char];
    if n < 10 then last
    else
      var r := NatToDecimal(n / 10) + last;
      assert r[..|r| - 1] == NatToDecimal(n / 10);
      r
  }

  /** `i64::to_string`: a leading `-` for negative numbers. */
  function IntToDecimal(x: int): (r: string)
    ensures |r| >= 1
    ensures forall k :: 0 <= k < |r| ==> r[k] == '-' || IsDigit(r[k])
  {
    if x < 0 then "-" + NatToDecimal(-x) else NatToDecimal(x)
  }

  /** Printing a natural number then parsing it gives the number back. */
  lemma NatToDecimalRoundTrip(n: nat)
    ensures ParseNat(NatToDecimal(n)) == Some(n)
  {
    var r := NatToDecimal(n);
    assert IsDigit(r[0]);
  }

  /** Printing then parsing gives the number back. */
  lemma IntToDecimalRoundTrip(x: int)
    ensures ParseInt(IntToDecimal(x)) == Some(x)
  {
    var r := IntToDecimal(x);
    if x < 0 {
      assert r[1..] == NatToDecimal(-x);
    }
  }

  /** The last cell holding `c` in reading order, or (-1, -1) when there is
      none: what a scan that overwrites its answer at every match leaves. */
  function LastCell(lines: seq<string>, c: char): (p: (int, int))
    ensures p == (-1, -1) || (0 <= p.0 < |lines| && 0 <= p.1 < |lines[p.0]| && lines[p.0][p.1] == c)
    ensures forall i, j :: 0 <= i < |lines| && 0 <= j < |lines[i]| && lines[i][j] == c ==>
      p != (-1, -1) && (i < p.0 || (i == p.0 && j <= p.1))
    decreases |lines|
  {
    if lines == [] then (-1, -1)
    else
      var last := |lines| - 1;
      var j := LastIn(lines[last], c);
      if j >= 0 then (last, j) else LastCell(lines[..last], c)
  }

  /** The index of the last occurrence of `c`, or -1. */
  function LastIn(s: string, c: char): (j: int)
    ensures -1 <= j < |s|
    ensures j >= 0 ==> s[j] == c
    ensures forall k :: j < k < |s| ==> s[k] != c
    decreases |s|
  {
    if s == [] then -1
    else if s[|s| - 1] == c then |s| - 1
    else LastIn(s[..|s| - 1], c)
  }
}
