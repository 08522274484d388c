/** Day 14, `perform`: tilting every column of the grid north between
    consecutive `#` cells, and the load on the north beams. */
module Day14Tilt {
  import opened Common
  import opened Day14Grid

  /** Number of `O` cells. */
  function CountO(s: seq<char>): nat
  {
    CountUpTo(s, |s|)
  }

  /** Number of `O` cells among the first n. */
  function CountUpTo(s: seq<char>, n: nat): nat
    requires n <= |s|
  {
    if n == 0 then 0 else CountUpTo(s, n - 1) + (if s[n - 1] == 'O' then 1 else 0)
  }

  lemma {:induction false} CountUpToBound(s: seq<char>, n: nat)
    requires n <= |s|
    ensures CountUpTo(s, n) <= n
    decreases n
  {
    if n > 0 {
      CountUpToBound(s, n - 1);
    }
  }

  lemma CountBound(s: seq<char>)
    ensures CountO(s) <= |s|
  {
    CountUpToBound(s, |s|);
  }

  /** The count of a prefix only looks at that prefix. */
  lemma {:induction false} CountAgree(s: seq<char>, u: seq<char>, n: nat)
    requires n <= |s| && n <= |u| && forall i :: 0 <= i < n ==> s[i] == u[i]
    ensures CountUpTo(s, n) == CountUpTo(u, n)
    decreases n
  {
    if n > 0 {
      CountAgree(s, u, n - 1);
    }
  }

  /** The indices of the `#` cells of a column, in increasing order (the
      source's `resh`). */
  function Hashes(col: seq<char>): (r: seq<nat>)
    ensures forall t :: 0 <= t < |r| ==> r[t] < |col|
    ensures Increasing(r)
  {
    HashesUpTo(col, |col|)
  }

  /** The indices of the `#` cells among the first n. */
  function HashesUpTo(col: seq<char>, n: nat): (r: seq<nat>)
    requires n <= |col|
    ensures forall t :: 0 <= t < |r| ==> r[t] < n
    ensures Increasing(r)
  {
    if n == 0 then []
    else
      var init := HashesUpTo(col, n - 1);
      if col[n - 1] == '#' then init + [n - 1] else init
  }

  /** Strictly increasing indices. */
  predicate Increasing(hs: seq<nat>)
  {
    forall a, b :: 0 <= a < b < |hs| ==> hs[a] < hs[b]
  }

  /** `Hashes` lists exactly the `#` cells. */
  lemma HashesExact(col: seq<char>)
    ensures forall t :: 0 <= t < |Hashes(col)| ==> col[Hashes(col)[t]] == '#'
    ensures forall i :: 0 <= i < |col| && col[i] == '#' ==> i in Hashes(col)
  {
    HashesUpToExact(col, |col|);
  }

  lemma HashAt(col: seq<char>, t: nat)
    requires t < |Hashes(col)|
    ensures col[Hashes(col)[t]] == '#'
  {
    HashesUpToExact(col, |col|);
  }

  lemma {:induction false} HashesUpToExact(col: seq<char>, n: nat)
    requires n <= |col|
    ensures forall t :: 0 <= t < |HashesUpTo(col, n)| ==> col[HashesUpTo(col, n)[t]] == '#'
    ensures forall i :: 0 <= i < n && col[i] == '#' ==> i in HashesUpTo(col, n)
    decreases n
  {
    if n > 0 {
      HashesUpToExact(col, n - 1);
    }
  }

  /** Cell i lies strictly between the t-th and the (t+1)-th `#`. */
  predicate InWindow(hs: seq<nat>, t: nat, i: nat)
  {
    t + 1 < |hs| && hs[t] < i < hs[t + 1]
  }

  /** The cells strictly between the t-th and the (t+1)-th `#`. */
  function Window(s: seq<char>, hs: seq<nat>, t: nat): (r: seq<char>)
    requires t + 1 < |hs| && hs[t] < hs[t + 1] <= |s|
    ensures |r| == hs[t + 1] - hs[t] - 1
  {
    s[hs[t] + 1..hs[t + 1]]
  }

  /** The first window, from window s on, that holds cell i. */
  function WindowFrom(hs: seq<nat>, s: nat, i: nat): (r: Option<nat>)
    ensures r.Some? ==> s <= r.value && InWindow(hs, r.value, i)
    decreases |hs| - s
  {
    if s + 1 >= |hs| then None
    else if hs[s] < i < hs[s + 1] then Some(s)
    else WindowFrom(hs, s + 1, i)
  }

  function WindowOf(hs: seq<nat>, i: nat): Option<nat>
  {
    WindowFrom(hs, 0, i)
  }

  lemma {:induction false} WindowFromFinds(hs: seq<nat>, s: nat, t: nat, i: nat)
    requires Increasing(hs) && s <= t && InWindow(hs, t, i)
    ensures WindowFrom(hs, s, i) == Some(t)
    decreases t - s
  {
    if s < t {
      assert hs[s + 1] <= hs[t];
      WindowFromFinds(hs, s + 1, t, i);
    }
  }

  /** With increasing `#` indices, the window of a cell is unique. */
  lemma WindowOfIs(hs: seq<nat>, t: nat, i: nat)
    requires Increasing(hs) && InWindow(hs, t, i)
    ensures WindowOf(hs, i) == Some(t)
  {
    WindowFromFinds(hs, 0, t, i);
  }

  /** A cell that is not a `#` and lies strictly between the first and
      the last `#` belongs to some window. */
  lemma {:induction false} WindowFromCovers(hs: seq<nat>, s: nat, i: nat)
    requires Increasing(hs) && s < |hs| && hs[s] < i < hs[|hs| - 1] && i !in hs
    ensures WindowFrom(hs, s, i).Some?
    decreases |hs| - s
  {
    if s + 1 < |hs| && !(hs[s + 1] > i) {
      assert hs[s + 1] != i;
      WindowFromCovers(hs, s + 1, i);
    }
  }

  /** `count` `O`s followed by dots: a tilted segment of length len. */
  function Packed(count: nat, len: nat): (r: seq<char>)
    ensures |r| == len
  {
    seq(len, k requires 0 <= k < len => if k < count then 'O' else '.')
  }

  lemma {:induction false} CountUpToPacked(count: nat, len: nat, n: nat)
    requires n <= len
    ensures CountUpTo(Packed(count, len), n) == if n < count then n else count
    decreases n
  {
    if n > 0 {
      CountUpToPacked(count, len, n - 1);
    }
  }

  lemma CountPacked(count: nat, len: nat)
    requires count <= len
    ensures CountO(Packed(count, len)) == count
  {
    CountUpToPacked(count, len, len);
  }

  /** The reference tilt of one cell: a cell inside a window becomes `O`
      when its offset in the window is below the number of `O`s the window
      holds, `.` otherwise; every other cell keeps its value. */
  function TiltCell(col: seq<char>, hs: seq<nat>, i: nat): char
    requires i < |col| && forall t :: 0 <= t < |hs| ==> hs[t] < |col|
  {
    match WindowOf(hs, i)
    case None => col[i]
    case Some(t) => if i - hs[t] - 1 < CountO(col[hs[t] + 1..hs[t + 1]]) then 'O' else '.'
  }

  /** The reference tilt of a column. */
  function TiltCol(col: seq<char>): (r: seq<char>)
    ensures |r| == |col|
  {
    var hs := Hashes(col);
    seq(|col|, i requires 0 <= i < |col| => TiltCell(col, hs, i))
  }

  lemma HashesSameMask(a: seq<char>, b: seq<char>)
    requires |a| == |b| && forall i :: 0 <= i < |a| ==> (a[i] == '#' <==> b[i] == '#')
    ensures Hashes(a) == Hashes(b)
  {
    HashesUpToSameMask(a, b, |a|);
  }

  lemma {:induction false} HashesUpToSameMask(a: seq<char>, b: seq<char>, n: nat)
    requires n <= |a| && n <= |b| && forall i :: 0 <= i < n ==> (a[i] == '#' <==> b[i] == '#')
    ensures HashesUpTo(a, n) == HashesUpTo(b, n)
    decreases n
  {
    if n > 0 {
      HashesUpToSameMask(a, b, n - 1);
    }
  }

  lemma NotBetween(hs: seq<nat>, t: nat, u: nat)
    requires Increasing(hs) && t + 1 < |hs| && u < |hs|
    ensures !(hs[t] < hs[u] < hs[t + 1])
  {
    if u <= t {
      assert u == t || hs[u] < hs[t];
    } else {
      assert u == t + 1 || hs[t + 1] < hs[u];
    }
  }

  /** No `#` lies strictly inside a window. */
  lemma WindowHasNoHash(col: seq<char>, t: nat, i: nat)
    requires InWindow(Hashes(col), t, i)
    ensures i < |col| && col[i] != '#'
  {
    var hs := Hashes(col);
    HashesExact(col);
    assert i < hs[t + 1] < |col|;
    if col[i] == '#' {
      var u :| 0 <= u < |hs| && hs[u] == i;
      NotBetween(hs, t, u);
    }
  }

  lemma TiltCellKeepsHash(col: seq<char>, i: nat)
    requires i < |col|
    ensures TiltCol(col)[i] == '#' <==> col[i] == '#'
  {
    var hs := Hashes(col);
    match WindowOf(hs, i)
    case None =>
    case Some(t) =>
      WindowHasNoHash(col, t, i);
  }

  /** A tilt never moves, creates or removes a `#`. */
  lemma TiltKeepsHashes(col: seq<char>)
    ensures forall i :: 0 <= i < |col| ==> (TiltCol(col)[i] == '#' <==> col[i] == '#')
    ensures Hashes(TiltCol(col)) == Hashes(col)
  {
    forall i | 0 <= i < |col| ensures TiltCol(col)[i] == '#' <==> col[i] == '#' {
      TiltCellKeepsHash(col, i);
    }
    HashesSameMask(TiltCol(col), col);
  }

  /** Cells outside every window (above the first `#`, below the last,
      or anywhere in a column with fewer than two) keep their value. */
  lemma TiltOutside(col: seq<char>, i: nat)
    requires i < |col|
    requires var hs := Hashes(col); |hs| < 2 || i <= hs[0] || i >= hs[|hs| - 1]
    ensures TiltCol(col)[i] == col[i]
  {
    var hs := Hashes(col);
    match WindowOf(hs, i)
    case None =>
    case Some(t) =>
  }

  /** A cell inside window t becomes `O` exactly when its offset in the
      window is below the window's number of `O`s. */
  lemma TiltWindowCell(col: seq<char>, t: nat, i: nat)
    requires InWindow(Hashes(col), t, i)
    ensures var hs := Hashes(col);
      i < |col| && TiltCol(col)[i] == if i - hs[t] - 1 < CountO(col[hs[t] + 1..hs[t + 1]]) then 'O' else '.'
  {
    var hs := Hashes(col);
    CellInWindow(col, hs, t, i);
  }

  lemma CellInWindow(col: seq<char>, hs: seq<nat>, t: nat, i: nat)
    requires Increasing(hs) && InWindow(hs, t, i) && forall u :: 0 <= u < |hs| ==> hs[u] < |col|
    ensures TiltCell(col, hs, i) == if i - hs[t] - 1 < CountO(col[hs[t] + 1..hs[t + 1]]) then 'O' else '.'
  {
    WindowOfIs(hs, t, i);
  }

  /** Within a window the tilted column is the window's `O`s packed at the
      top (low indices), followed by dots. */
  lemma TiltWindow(col: seq<char>, t: nat)
    requires t + 1 < |Hashes(col)|
    ensures var hs := Hashes(col);
      TiltCol(col)[hs[t] + 1..hs[t + 1]] == Packed(CountO(col[hs[t] + 1..hs[t + 1]]), hs[t + 1] - hs[t] - 1)
  {
    var hs := Hashes(col);
    var top, bot := hs[t], hs[t + 1];
    var c := CountO(col[top + 1..bot]);
    var r := TiltCol(col)[top + 1..bot];
    var p := Packed(c, bot - top - 1);
    forall k | 0 <= k < bot - top - 1 ensures r[k] == p[k] {
      TiltWindowCell(col, t, top + 1 + k);
    }
  }

  /** A tilt keeps the number of `O`s in each window. */
  lemma TiltKeepsCount(col: seq<char>, t: nat)
    requires t + 1 < |Hashes(col)|
    ensures var hs := Hashes(col);
      CountO(TiltCol(col)[hs[t] + 1..hs[t + 1]]) == CountO(col[hs[t] + 1..hs[t + 1]])
  {
    var hs := Hashes(col);
    TiltWindow(col, t);
    CountBound(col[hs[t] + 1..hs[t + 1]]);
    CountPacked(CountO(col[hs[t] + 1..hs[t + 1]]), hs[t + 1] - hs[t] - 1);
  }

  lemma TiltSameHashes(col: seq<char>)
    ensures Hashes(TiltCol(col)) == Hashes(col)
  {
    TiltKeepsHashes(col);
  }

  /** Every window of the column already has its `O`s packed at the top. */
  predicate Settled(col: seq<char>)
  {
    var hs := Hashes(col);
    forall t :: 0 <= t < |hs| - 1 ==> Window(col, hs, t) == Packed(CountO(Window(col, hs, t)), |Window(col, hs, t)|)
  }

  /** A tilted column is settled. */
  lemma TiltSettles(col: seq<char>)
    ensures Settled(TiltCol(col))
  {
    var r := TiltCol(col);
    var hs := Hashes(col);
    TiltSameHashes(col);
    forall t | 0 <= t < |hs| - 1
      ensures Window(r, hs, t) == Packed(CountO(Window(r, hs, t)), |Window(r, hs, t)|)
    {
      WindowSettles(col, t);
    }
    SettledBy(r, hs);
  }

  lemma SettledBy(r: seq<char>, hs: seq<nat>)
    requires hs == Hashes(r)
    requires forall t :: 0 <= t < |hs| - 1 ==> Window(r, hs, t) == Packed(CountO(Window(r, hs, t)), |Window(r, hs, t)|)
    ensures Settled(r)
  {
  }

  lemma WindowSettles(col: seq<char>, t: nat)
    requires t + 1 < |Hashes(col)|
    ensures var hs := Hashes(col); var r := TiltCol(col);
      r[hs[t] + 1..hs[t + 1]] == Packed(CountO(r[hs[t] + 1..hs[t + 1]]), hs[t + 1] - hs[t] - 1)
  {
    TiltWindow(col, t);
    TiltKeepsCount(col, t);
  }

  lemma SettledCell(col: seq<char>, i: nat)
    requires Settled(col) && i < |col|
    ensures TiltCol(col)[i] == col[i]
  {
    var hs := Hashes(col);
    assert TiltCol(col)[i] == TiltCell(col, hs, i);
    match WindowOf(hs, i)
    case None =>
    case Some(t) =>
      var top, bot := hs[t], hs[t + 1];
      assert col[i] == Window(col, hs, t)[i - top - 1];
  }

  /** Tilting a settled column changes nothing. */
  lemma SettledFixed(col: seq<char>)
    requires Settled(col)
    ensures TiltCol(col) == col
  {
    forall i | 0 <= i < |col| ensures TiltCol(col)[i] == col[i] {
      SettledCell(col, i);
    }
  }

  /** Tilting a tilted column changes nothing. */
  lemma TiltIdempotent(col: seq<char>)
    ensures TiltCol(TiltCol(col)) == TiltCol(col)
  {
    TiltSettles(col);
    SettledFixed(TiltCol(col));
  }

  /** In a column whose first and last cells are `#`, every tilted cell is
      `#`, `O` or `.`. */
  lemma TiltClean(col: seq<char>)
    requires |col| >= 2 && col[0] == '#' && col[|col| - 1] == '#'
    ensures forall i :: 0 <= i < |col| ==> TiltCol(col)[i] in {'#', 'O', '.'}
  {
    var hs := Hashes(col);
    HashesExact(col);
    assert 0 in hs && |col| - 1 in hs;
    var a :| 0 <= a < |hs| && hs[a] == 0;
    var b :| 0 <= b < |hs| && hs[b] == |col| - 1;
    assert hs[0] == 0;
    assert hs[|hs| - 1] == |col| - 1;
    forall i | 0 <= i < |col| ensures TiltCol(col)[i] in {'#', 'O', '.'} {
      if col[i] != '#' {
        assert i !in hs;
        WindowFromCovers(hs, 0, i);
      }
    }
  }

  lemma {:induction false} CountUpToAppend(a: seq<char>, b: seq<char>, n: nat)
    requires n <= |b|
    ensures CountUpTo(a + b, |a| + n) == CountO(a) + CountUpTo(b, n)
    decreases n
  {
    if n > 0 {
      CountUpToAppend(a, b, n - 1);
      assert (a + b)[|a| + n - 1] == b[n - 1];
    } else {
      CountAgree(a + b, a, |a|);
    }
  }

  lemma CountAppend(a: seq<char>, b: seq<char>)
    ensures CountO(a + b) == CountO(a) + CountO(b)
  {
    CountUpToAppend(a, b, |b|);
  }

  lemma CountPrefix(s: seq<char>, lo: nat, hi: nat)
    requires lo <= hi <= |s|
    ensures CountO(s[..hi]) == CountO(s[..lo]) + CountO(s[lo..hi])
  {
    assert s[..hi] == s[..lo] + s[lo..hi];
    CountAppend(s[..lo], s[lo..hi]);
  }

  lemma CountSplitAt(s: seq<char>, k: nat)
    requires k <= |s|
    ensures CountO(s) == CountO(s[..k]) + CountO(s[k..])
  {
    assert s == s[..k] + s[k..];
    CountAppend(s[..k], s[k..]);
  }

  /** A `#` at the end of a stretch adds no `O`. */
  lemma CountToHash(s: seq<char>, lo: nat, hi: nat)
    requires lo <= hi < |s| && s[hi] == '#'
    ensures CountO(s[lo..hi + 1]) == CountO(s[lo..hi])
  {
    CountAgree(s[lo..hi + 1], s[lo..hi], hi - lo);
  }

  /** Window t together with the `#` that closes it. */
  function Segment(s: seq<char>, hs: seq<nat>, t: nat): (r: seq<char>)
    requires t + 1 < |hs| && hs[t] < hs[t + 1] < |s|
    ensures |r| == hs[t + 1] - hs[t]
  {
    s[hs[t] + 1..hs[t + 1] + 1]
  }

  /** Two columns with as many `O`s up to the first `#` and in every
      segment have as many `O`s up to each `#`. */
  lemma {:induction false} PrefixCount(a: seq<char>, b: seq<char>, hs: seq<nat>, k: nat)
    requires |a| == |b| && Increasing(hs) && k < |hs| && forall t :: 0 <= t < |hs| ==> hs[t] < |a|
    requires CountO(a[..hs[0] + 1]) == CountO(b[..hs[0] + 1])
    requires forall t :: 0 <= t < |hs| - 1 ==> CountO(Segment(a, hs, t)) == CountO(Segment(b, hs, t))
    ensures CountO(a[..hs[k] + 1]) == CountO(b[..hs[k] + 1])
    decreases k
  {
    if k > 0 {
      PrefixCount(a, b, hs, k - 1);
      CountPrefix(a, hs[k - 1] + 1, hs[k] + 1);
      CountPrefix(b, hs[k - 1] + 1, hs[k] + 1);
      assert CountO(Segment(a, hs, k - 1)) == CountO(Segment(b, hs, k - 1));
    }
  }

  /** Two columns with as many `O`s up to the first `#`, after the last
      and in every segment have as many `O`s. */
  lemma SameTotal(a: seq<char>, b: seq<char>, hs: seq<nat>)
    requires |a| == |b| && Increasing(hs) && |hs| > 0 && forall t :: 0 <= t < |hs| ==> hs[t] < |a|
    requires CountO(a[..hs[0] + 1]) == CountO(b[..hs[0] + 1])
    requires CountO(a[hs[|hs| - 1] + 1..]) == CountO(b[hs[|hs| - 1] + 1..])
    requires forall t :: 0 <= t < |hs| - 1 ==> CountO(Segment(a, hs, t)) == CountO(Segment(b, hs, t))
    ensures CountO(a) == CountO(b)
  {
    var last := hs[|hs| - 1];
    PrefixCount(a, b, hs, |hs| - 1);
    CountSplitAt(a, last + 1);
    CountSplitAt(b, last + 1);
    var above, below := CountO(a[..last + 1]), CountO(a[last + 1..]);
    assert CountO(a) == above + below;
    assert CountO(b) == above + below;
  }

  /** Pointwise agreement before cell `lo` and from cell `hi` on. */
  lemma SameEnds(a: seq<char>, b: seq<char>, lo: nat, hi: nat)
    requires |a| == |b| && lo <= hi <= |a|
    requires forall i :: 0 <= i < |a| && (i < lo || i >= hi) ==> a[i] == b[i]
    ensures a[..lo] == b[..lo] && a[hi..] == b[hi..]
  {
  }

  /** A tilt keeps the number of `O`s of each segment. */
  lemma TiltKeepsSegment(col: seq<char>, t: nat)
    requires t + 1 < |Hashes(col)|
    ensures var hs := Hashes(col);
      CountO(Segment(TiltCol(col), hs, t)) == CountO(Segment(col, hs, t))
  {
    var hs := Hashes(col);
    var r := TiltCol(col);
    var a, b := hs[t] + 1, hs[t + 1];
    TiltKeepsCount(col, t);
    HashAt(col, t + 1);
    TiltCellKeepsHash(col, b);
    CountToHash(col, a, b);
    CountToHash(r, a, b);
  }

  /** Without any `#` a tilt changes nothing. */
  lemma TiltNoHash(col: seq<char>)
    requires |Hashes(col)| == 0
    ensures TiltCol(col) == col
  {
    var r := TiltCol(col);
    forall i | 0 <= i < |col| ensures r[i] == col[i] {
      TiltOutside(col, i);
    }
  }

  /** A tilt keeps the cells up to the first `#` and after the last one. */
  lemma TiltKeepsEnds(col: seq<char>)
    requires |Hashes(col)| > 0
    ensures var hs, r := Hashes(col), TiltCol(col);
      r[..hs[0] + 1] == col[..hs[0] + 1] && r[hs[|hs| - 1] + 1..] == col[hs[|hs| - 1] + 1..]
  {
    var hs := Hashes(col);
    var r := TiltCol(col);
    forall i | 0 <= i < |col| && (i <= hs[0] || i > hs[|hs| - 1]) ensures r[i] == col[i] {
      TiltOutside(col, i);
    }
    SameEnds(r, col, hs[0] + 1, hs[|hs| - 1] + 1);
  }

  /** A tilt keeps the number of `O`s of the whole column. */
  lemma TiltKeepsTotal(col: seq<char>)
    ensures CountO(TiltCol(col)) == CountO(col)
  {
    var hs := Hashes(col);
    var r := TiltCol(col);
    if |hs| == 0 {
      TiltNoHash(col);
    } else {
      TiltKeepsEnds(col);
      forall t | 0 <= t < |hs| - 1 ensures CountO(Segment(r, hs, t)) == CountO(Segment(col, hs, t)) {
        TiltKeepsSegment(col, t);
      }
      SameTotal(r, col, hs);
    }
  }

  // ---------------------------------------------------------------------
  // The load
  // ---------------------------------------------------------------------

  /** `((top + 1)..bot).filter_map(O => n - 1 - i).sum()`: the load of the
      `O`s strictly between rows top and i. */
  function WindowLoad(col: seq<char>, top: nat, i: nat): nat
    requires top < i <= |col|
    decreases i
  {
    if i == top + 1 then 0
    else WindowLoad(col, top, i - 1) + (if col[i - 1] == 'O' then |col| - 1 - (i - 1) else 0)
  }

  /** The load of windows t, t + 1, … of a column. */
  function WindowsLoad(col: seq<char>, hs: seq<nat>, t: nat): nat
    decreases |hs| - t
  {
    if t + 1 >= |hs| then 0
    else (if hs[t] < hs[t + 1] <= |col| then WindowLoad(col, hs[t], hs[t + 1]) else 0) + WindowsLoad(col, hs, t + 1)
  }

  /** The load a column puts on the north beam: every `O` inside a window
      weighs n - 1 - i, its distance to the bottom row. */
  function ColLoad(col: seq<char>): nat
  {
    WindowsLoad(col, Hashes(col), 0)
  }

  lemma {:induction false} WindowLoadFrame(a: seq<char>, b: seq<char>, top: nat, i: nat)
    requires top < i <= |a| == |b| && forall k :: top < k < i ==> a[k] == b[k]
    ensures WindowLoad(a, top, i) == WindowLoad(b, top, i)
    decreases i
  {
    if i > top + 1 {
      WindowLoadFrame(a, b, top, i - 1);
    }
  }

  // ---------------------------------------------------------------------
  // Columns of a grid and `perform`
  // ---------------------------------------------------------------------

  /** No row is shorter than the first one (`lines[i][j]` with j below the
      first row's length stays in bounds). */
  predicate Wide(g: Grid<char>)
  {
    |g| >= 1 && forall i :: 0 <= i < |g| ==> |g[i]| >= |g[0]|
  }

  /** Column j (`vertical_line`). */
  function Col(g: Grid<char>, j: nat): (r: seq<char>)
    requires forall i :: 0 <= i < |g| ==> j < |g[i]|
    ensures |r| == |g|
  {
    seq(|g|, i requires 0 <= i < |g| => g[i][j])
  }

  /** The reference tilt of the grid: each of the first row's columns
      tilted, every cell beyond them kept. */
  function TiltGrid(g: Grid<char>): (r: Grid<char>)
    requires Wide(g)
    ensures |r| == |g| && forall i :: 0 <= i < |g| ==> |r[i]| == |g[i]|
  {
    seq(|g|, i requires 0 <= i < |g| =>
      seq(|g[i]|, j requires 0 <= j < |g[i]| => if j < |g[0]| then TiltCol(Col(g, j))[i] else g[i][j]))
  }

  /** The load of the first j columns. */
  function LoadCols(g: Grid<char>, j: nat): nat
    requires Wide(g) && j <= |g[0]|
  {
    if j == 0 then 0 else LoadCols(g, j - 1) + ColLoad(Col(g, j - 1))
  }

  /** The total load on the north beams. */
  function Load(g: Grid<char>): nat
    requires Wide(g)
  {
    LoadCols(g, |g[0]|)
  }

  /** The grid with column j replaced by `col`. */
  function SetCol(g: Grid<char>, j: nat, col: seq<char>): (r: Grid<char>)
    requires |col| == |g| && forall i :: 0 <= i < |g| ==> j < |g[i]|
    ensures |r| == |g|
  {
    seq(|g|, i requires 0 <= i < |g| => g[i][j := col[i]])
  }

  /** `col` with the cells strictly between top and bot replaced. */
  function Splice(col: seq<char>, top: nat, bot: nat, p: seq<char>): (r: seq<char>)
    requires top < bot <= |col| && |p| == bot - top - 1
    ensures |r| == |col|
    ensures forall i :: 0 <= i < |col| ==> r[i] == if top < i < bot then p[i - top - 1] else col[i]
  {
    col[..top + 1] + p + col[bot..]
  }

  /** The state of the write loop before cell i: cells top+1..i-1 of
      column j hold the packed window's first cells, and `count` `O`s are
      left to write. */
  predicate WrittenUpTo(lines0: Grid<char>, j: nat, top: nat, bot: nat, count0: nat, i: nat, lines: Grid<char>, count: nat)
  {
    (forall r :: 0 <= r < |lines0| ==> j < |lines0[r]|) && top < i <= bot <= |lines0|
    && count == (if count0 > i - top - 1 then count0 - (i - top - 1) else 0)
    && lines == SetCol(lines0, j, Splice(Col(lines0, j), top, i, Packed(count0, bot - top - 1)[..i - top - 1]))
  }

  /** One turn of the write loop: cell i becomes `O` while `O`s are left,
      `.` after. */
  method WriteCell(lines0: Grid<char>, j: nat, top: nat, bot: nat, count0: nat, i: nat, lines: Grid<char>, count: nat)
    returns (lines': Grid<char>, count': nat)
    requires WrittenUpTo(lines0, j, top, bot, count0, i, lines, count) && i < bot
    ensures WrittenUpTo(lines0, j, top, bot, count0, i + 1, lines', count')
  {
    ghost var p := Packed(count0, bot - top - 1);
    var x: char;
    if count > 0 {
      count' := count - 1;
      x := 'O';
    } else {
      count' := count;
      x := '.';
    }
    assert x == p[i - top - 1];
    WriteStep(lines0, j, top, i, bot, p, lines, x);
    lines' := lines[i := lines[i][j := x]];
  }

  lemma WriteStart(lines0: Grid<char>, j: nat, top: nat, bot: nat, count0: nat)
    requires forall i :: 0 <= i < |lines0| ==> j < |lines0[i]|
    requires top < bot <= |lines0|
    ensures WrittenUpTo(lines0, j, top, bot, count0, top + 1, lines0, count0)
  {
    SetColSame(lines0, j);
    assert Splice(Col(lines0, j), top, top + 1, Packed(count0, bot - top - 1)[..0]) == Col(lines0, j);
  }

  lemma WriteEnd(lines0: Grid<char>, j: nat, top: nat, bot: nat, count0: nat, lines: Grid<char>, count: nat)
    requires WrittenUpTo(lines0, j, top, bot, count0, bot, lines, count)
    ensures lines == SetCol(lines0, j, Splice(Col(lines0, j), top, bot, Packed(count0, bot - top - 1)))
  {
    var p := Packed(count0, bot - top - 1);
    assert p[..bot - top - 1] == p;
  }

  /** The inner `for` loop of `perform`: the cells of column j strictly
      between rows top and bot become `count0` `O`s, then dots. */
  method WriteWindow(lines0: Grid<char>, j: nat, top: nat, bot: nat, count0: nat) returns (lines: Grid<char>)
    requires forall i :: 0 <= i < |lines0| ==> j < |lines0[i]|
    requires top < bot <= |lines0|
    ensures lines == SetCol(lines0, j, Splice(Col(lines0, j), top, bot, Packed(count0, bot - top - 1)))
  {
    WriteStart(lines0, j, top, bot, count0);
    lines := lines0;
    var count := count0;
    for i := top + 1 to bot
      invariant WrittenUpTo(lines0, j, top, bot, count0, i, lines, count)
    {
      lines, count := WriteCell(lines0, j, top, bot, count0, i, lines, count);
    }
    WriteEnd(lines0, j, top, bot, count0, lines, count);
  }

  /** Writing cell i of column j extends the spliced window by one cell. */
  lemma WriteStep(g: Grid<char>, j: nat, top: nat, i: nat, bot: nat, p: seq<char>, lines: Grid<char>, x: char)
    requires forall r :: 0 <= r < |g| ==> j < |g[r]|
    requires top < i < bot <= |g| && |p| == bot - top - 1 && x == p[i - top - 1]
    requires lines == SetCol(g, j, Splice(Col(g, j), top, i, p[..i - top - 1]))
    ensures lines[i := lines[i][j := x]] == SetCol(g, j, Splice(Col(g, j), top, i + 1, p[..i - top]))
  {
    var c0 := Splice(Col(g, j), top, i, p[..i - top - 1]);
    var c1 := Splice(Col(g, j), top, i + 1, p[..i - top]);
    forall k | 0 <= k < |g| ensures c1[k] == c0[i := x][k] {
    }
    assert c1 == c0[i := x];
    var l1 := lines[i := lines[i][j := x]];
    var r := SetCol(g, j, c1);
    forall k | 0 <= k < |g| ensures l1[k] == r[k] {
    }
  }

  /** Cell i lies in window t or a later one. */
  predicate Done(hs: seq<nat>, t: nat, i: nat)
  {
    match WindowOf(hs, i)
    case None => false
    case Some(u) => u >= t
  }

  lemma DoneStep(hs: seq<nat>, t: nat, i: nat)
    requires Increasing(hs) && t + 1 < |hs|
    ensures Done(hs, t, i) <==> Done(hs, t + 1, i) || InWindow(hs, t, i)
  {
    if InWindow(hs, t, i) {
      WindowOfIs(hs, t, i);
    }
  }

  /** The column as it stands once windows t, t + 1, … are processed. */
  function Partial(col: seq<char>, target: seq<char>, hs: seq<nat>, t: nat): (r: seq<char>)
    requires |target| == |col|
    ensures |r| == |col|
  {
    seq(|col|, i requires 0 <= i < |col| => if Done(hs, t, i) then target[i] else col[i])
  }

  /** Before any window is processed the column is the original one. */
  lemma PartialFirst(col: seq<char>, target: seq<char>, hs: seq<nat>, t: nat)
    requires |target| == |col| && (t + 1 == |hs| || (t == 0 && |hs| == 0))
    ensures Partial(col, target, hs, t) == col
  {
    var r := Partial(col, target, hs, t);
    forall i | 0 <= i < |col| ensures r[i] == col[i] {
      assert !Done(hs, t, i);
    }
  }

  /** After all of them it is the target column. */
  lemma PartialLast(col: seq<char>, tilt: bool, target: seq<char>, hs: seq<nat>)
    requires target == (if tilt then TiltCol(col) else col) && hs == Hashes(col)
    ensures Partial(col, target, hs, 0) == target
  {
    var r := Partial(col, target, hs, 0);
    forall i | 0 <= i < |col| ensures r[i] == target[i] {
    }
  }

  lemma PartialStep(col: seq<char>, target: seq<char>, hs: seq<nat>, t: nat)
    requires |target| == |col| && Increasing(hs) && t + 1 < |hs| && hs[t + 1] <= |col|
    ensures Partial(col, target, hs, t)
        == Splice(Partial(col, target, hs, t + 1), hs[t], hs[t + 1], target[hs[t] + 1..hs[t + 1]])
  {
    var a := Partial(col, target, hs, t);
    var b := Splice(Partial(col, target, hs, t + 1), hs[t], hs[t + 1], target[hs[t] + 1..hs[t + 1]]);
    forall i | 0 <= i < |col| ensures a[i] == b[i] {
      DoneStep(hs, t, i);
      if InWindow(hs, t, i) {
        assert b[i] == target[hs[t] + 1..hs[t + 1]][i - hs[t] - 1];
      }
    }
  }

  lemma SetColSame(g: Grid<char>, j: nat)
    requires forall i :: 0 <= i < |g| ==> j < |g[i]|
    ensures SetCol(g, j, Col(g, j)) == g
  {
    var r := SetCol(g, j, Col(g, j));
    forall i | 0 <= i < |g| ensures r[i] == g[i] {
    }
  }

  lemma SetColTwice(g: Grid<char>, j: nat, a: seq<char>, b: seq<char>)
    requires |a| == |b| == |g| && forall i :: 0 <= i < |g| ==> j < |g[i]|
    ensures SetCol(SetCol(g, j, a), j, b) == SetCol(g, j, b) && Col(SetCol(g, j, a), j) == a
  {
    var x := SetCol(SetCol(g, j, a), j, b);
    var y := SetCol(g, j, b);
    forall i | 0 <= i < |g| ensures x[i] == y[i] {
    }
  }

  /** What processing window t does to the partially processed column:
      with `tilt` its cells become the packed window, without it nothing
      changes. */
  lemma WindowStepTilt(col: seq<char>, hs: seq<nat>, t: nat, cur: seq<char>, next: seq<char>)
    requires hs == Hashes(col) && t + 1 < |hs|
    requires cur == Partial(col, TiltCol(col), hs, t + 1) && next == Partial(col, TiltCol(col), hs, t)
    ensures next == Splice(cur, hs[t], hs[t + 1], Packed(CountO(col[hs[t] + 1..hs[t + 1]]), hs[t + 1] - hs[t] - 1))
  {
    PartialStep(col, TiltCol(col), hs, t);
    TiltWindow(col, t);
  }

  lemma WindowStepKeep(col: seq<char>, hs: seq<nat>, t: nat, cur: seq<char>, next: seq<char>)
    requires hs == Hashes(col) && t + 1 < |hs|
    requires cur == Partial(col, col, hs, t + 1) && next == Partial(col, col, hs, t)
    ensures next == cur
  {
    forall i | 0 <= i < |col| ensures next[i] == cur[i] {
    }
  }

  lemma WindowStepDone(col: seq<char>, hs: seq<nat>, target: seq<char>, t: nat, next: seq<char>)
    requires hs == Hashes(col) && t + 1 < |hs| && |target| == |col| && next == Partial(col, target, hs, t)
    ensures forall k :: hs[t] < k < hs[t + 1] ==> next[k] == target[k]
  {
    forall k | hs[t] < k < hs[t + 1] ensures next[k] == target[k] {
      WindowOfIs(hs, t, k);
    }
  }

  /** What the body of the window loop may rely on for window t. */
  predicate WindowReady(tilt: bool, vertical: seq<char>, target: seq<char>, resh: seq<nat>, t: nat, cur: seq<char>, next: seq<char>)
  {
    |cur| == |target| == |vertical| && t + 1 < |resh| && resh[t] < resh[t + 1] <= |vertical|
    && (tilt ==> next == Splice(cur, resh[t], resh[t + 1],
                                Packed(CountO(vertical[resh[t] + 1..resh[t + 1]]), resh[t + 1] - resh[t] - 1)))
    && (!tilt ==> next == cur)
    && (forall k :: resh[t] < k < resh[t + 1] ==> next[k] == target[k])
  }

  lemma WindowFacts(col: seq<char>, tilt: bool, hs: seq<nat>, target: seq<char>, t: nat, cur: seq<char>, next: seq<char>)
    requires hs == Hashes(col) && t + 1 < |hs| && target == (if tilt then TiltCol(col) else col)
    requires cur == Partial(col, target, hs, t + 1) && next == Partial(col, target, hs, t)
    ensures WindowReady(tilt, col, target, hs, t, cur, next)
  {
    WindowStepDone(col, hs, target, t, next);
    if tilt {
      WindowStepTilt(col, hs, t, cur, next);
    } else {
      WindowStepKeep(col, hs, t, cur, next);
    }
  }

  lemma AfterWrite(lines0: Grid<char>, j: nat, cur: seq<char>, next: seq<char>, top: nat, bot: nat, p: seq<char>,
                   lines: Grid<char>, lines': Grid<char>)
    requires |cur| == |lines0| && forall i :: 0 <= i < |lines0| ==> j < |lines0[i]|
    requires top < bot <= |cur| && |p| == bot - top - 1 && Splice(cur, top, bot, p) == next
    requires lines == SetCol(lines0, j, cur)
    requires lines' == SetCol(lines, j, Splice(Col(lines, j), top, bot, p))
    ensures lines' == SetCol(lines0, j, next) && Col(lines', j) == next
  {
    SetColTwice(lines0, j, cur, next);
    SetColTwice(lines0, j, next, next);
  }

  /** With `tilt`, window t is rewritten as its `O`s packed at the top;
      without it the column stays as it is. */
  method RewriteWindow(lines0: Grid<char>, j: nat, tilt: bool, vertical: seq<char>, ghost target: seq<char>,
                       resh: seq<nat>, t: nat, ghost cur: seq<char>, ghost next: seq<char>, lines: Grid<char>)
    returns (lines': Grid<char>)
    requires forall i :: 0 <= i < |lines0| ==> j < |lines0[i]|
    requires |vertical| == |lines0| && WindowReady(tilt, vertical, target, resh, t, cur, next)
    requires lines == SetCol(lines0, j, cur)
    ensures lines' == SetCol(lines0, j, next)
  {
    var top, bot := resh[t], resh[t + 1];
    var count := CountO(vertical[top + 1..bot]);
    if tilt {
      assert |lines| == |cur| && forall i :: 0 <= i < |lines| ==> j < |lines[i]|;
      lines' := WriteWindow(lines, j, top, bot, count);
      AfterWrite(lines0, j, cur, next, top, bot, Packed(count, bot - top - 1), lines, lines');
    } else {
      lines' := lines;
    }
  }

  /** The load read back from column j of the rewritten grid is the load
      of the window in the target column. */
  lemma WeighedWindow(lines0: Grid<char>, j: nat, next: seq<char>, target: seq<char>, top: nat, bot: nat,
                      lines: Grid<char>)
    requires forall i :: 0 <= i < |lines0| ==> j < |lines0[i]|
    requires |next| == |target| == |lines0| && top < bot <= |next|
    requires forall k :: top < k < bot ==> next[k] == target[k]
    requires lines == SetCol(lines0, j, next)
    ensures forall i :: 0 <= i < |lines| ==> j < |lines[i]|
    ensures WindowLoad(Col(lines, j), top, bot) == WindowLoad(target, top, bot)
  {
    SetColTwice(lines0, j, next, next);
    WindowLoadFrame(next, target, top, bot);
  }

  /** The body of the window loop for window t: rewrite it when tilting,
      then weigh it. */
  method ProcessWindow(lines0: Grid<char>, j: nat, tilt: bool, vertical: seq<char>, ghost target: seq<char>,
                       resh: seq<nat>, t: nat, ghost cur: seq<char>, ghost next: seq<char>, lines: Grid<char>)
    returns (lines': Grid<char>, load: nat)
    requires forall i :: 0 <= i < |lines0| ==> j < |lines0[i]|
    requires |vertical| == |lines0| && WindowReady(tilt, vertical, target, resh, t, cur, next)
    requires lines == SetCol(lines0, j, cur)
    ensures lines' == SetCol(lines0, j, next)
    ensures load == WindowLoad(target, resh[t], resh[t + 1])
  {
    var top, bot := resh[t], resh[t + 1];
    lines' := RewriteWindow(lines0, j, tilt, vertical, target, resh, t, cur, next, lines);
    WeighedWindow(lines0, j, next, target, top, bot, lines');
    load := WindowLoad(Col(lines', j), top, bot);
  }

  lemma WindowsLoadStep(col: seq<char>, hs: seq<nat>, t: nat)
    requires hs == Hashes(col) && t + 1 < |hs|
    ensures WindowsLoad(col, hs, t) == WindowLoad(col, hs[t], hs[t + 1]) + WindowsLoad(col, hs, t + 1)
  {
  }

  /** The state of the window loop once windows t.. are done: column j
      holds the partial column and w their summed load. */
  predicate ColumnAt(lines0: Grid<char>, j: nat, vertical: seq<char>, target: seq<char>, resh: seq<nat>, t: nat,
                     lines: Grid<char>, w: nat)
  {
    (forall i :: 0 <= i < |lines0| ==> j < |lines0[i]|) && |target| == |vertical| == |lines0|
    && lines == SetCol(lines0, j, Partial(vertical, target, resh, t))
    && w == WindowsLoad(target, resh, t)
  }

  /** What the window loop of column j works with: the column's `#`
      indices, and the column it is to become, which has the same `#`s. */
  predicate ColumnSetup(lines0: Grid<char>, j: nat, tilt: bool, vertical: seq<char>, resh: seq<nat>, target: seq<char>)
  {
    (forall i :: 0 <= i < |lines0| ==> j < |lines0[i]|)
    && resh == Hashes(vertical) && Hashes(target) == resh
    && target == if tilt then TiltCol(vertical) else vertical
  }

  /** One pass of the window loop, on window u - 1 of the column. */
  method WindowStep(lines0: Grid<char>, j: nat, tilt: bool, vertical: seq<char>, resh: seq<nat>, ghost target: seq<char>,
                    u: nat, lines: Grid<char>, w: nat)
    returns (lines': Grid<char>, w': nat)
    requires ColumnSetup(lines0, j, tilt, vertical, resh, target) && 0 < u < |resh|
    requires ColumnAt(lines0, j, vertical, target, resh, u, lines, w)
    ensures ColumnAt(lines0, j, vertical, target, resh, u - 1, lines', w')
  {
    var t := u - 1;
    ghost var cur := Partial(vertical, target, resh, t + 1);
    ghost var next := Partial(vertical, target, resh, t);
    WindowFacts(vertical, tilt, resh, target, t, cur, next);
    var load;
    lines', load := ProcessWindow(lines0, j, tilt, vertical, target, resh, t, cur, next, lines);
    WindowsLoadStep(target, resh, t);
    w' := w + load;
  }

  /** Before the window loop no window is done. */
  lemma LoopStart(lines0: Grid<char>, j: nat, vertical: seq<char>, resh: seq<nat>, target: seq<char>, t: nat)
    requires forall i :: 0 <= i < |lines0| ==> j < |lines0[i]|
    requires vertical == Col(lines0, j) && |target| == |vertical| && (t + 1 == |resh| || (t == 0 && |resh| == 0))
    ensures ColumnAt(lines0, j, vertical, target, resh, t, lines0, 0)
  {
    PartialFirst(vertical, target, resh, t);
    SetColSame(lines0, j);
    assert WindowsLoad(target, resh, t) == 0;
  }

  /** After it column j is the target column. */
  lemma LoopEnd(lines0: Grid<char>, j: nat, tilt: bool, vertical: seq<char>, resh: seq<nat>, target: seq<char>,
                lines: Grid<char>, w: nat)
    requires ColumnAt(lines0, j, vertical, target, resh, 0, lines, w)
    requires resh == Hashes(vertical)
    requires target == if tilt then TiltCol(vertical) else vertical
    ensures lines == SetCol(lines0, j, target) && w == WindowsLoad(target, resh, 0)
  {
    PartialLast(vertical, tilt, target, resh);
  }

  /** The window loop of one column, `resh.windows(2).rev()`: windows
      last-1 down to 0, each rewritten and weighed in turn. */
  method WindowLoop(lines0: Grid<char>, j: nat, tilt: bool, vertical: seq<char>, resh: seq<nat>, ghost target: seq<char>,
                    last: nat)
    returns (lines: Grid<char>, w: nat)
    requires ColumnSetup(lines0, j, tilt, vertical, resh, target) && (last < |resh| || last == 0)
    requires ColumnAt(lines0, j, vertical, target, resh, last, lines0, 0)
    ensures ColumnAt(lines0, j, vertical, target, resh, 0, lines, w)
  {
    var t: nat := last;
    lines := lines0;
    w := 0;
    while t > 0
      invariant t < |resh| || t == 0
      invariant ColumnAt(lines0, j, vertical, target, resh, t, lines, w)
      decreases t
    {
      lines, w := WindowStep(lines0, j, tilt, vertical, resh, target, t, lines, w);
      t := t - 1;
    }
  }

  /** One column of `perform`: the windows between consecutive `#`s,
      bottom window first, each rewritten when tilting and then weighed. */
  method ColumnPass(lines0: Grid<char>, j: nat, tilt: bool) returns (lines: Grid<char>, w: nat)
    requires forall i :: 0 <= i < |lines0| ==> j < |lines0[i]|
    ensures lines == SetCol(lines0, j, if tilt then TiltCol(Col(lines0, j)) else Col(lines0, j))
    ensures w == ColLoad(if tilt then TiltCol(Col(lines0, j)) else Col(lines0, j))
  {
    var vertical := Col(lines0, j);
    var resh := Hashes(vertical);
    ghost var target := if tilt then TiltCol(vertical) else vertical;
    TiltSameHashes(vertical);
    var last := if |resh| == 0 then 0 else |resh| - 1;
    LoopStart(lines0, j, vertical, resh, target, last);
    lines, w := WindowLoop(lines0, j, tilt, vertical, resh, target, last);
    LoopEnd(lines0, j, tilt, vertical, resh, target, lines, w);
  }

  /** The first j columns taken from `a`, the rest from `b`. */
  function Merge(a: Grid<char>, b: Grid<char>, j: nat): (r: Grid<char>)
    requires |a| == |b| && forall i :: 0 <= i < |a| ==> |a[i]| == |b[i]|
    ensures |r| == |b| && forall i :: 0 <= i < |b| ==> |r[i]| == |b[i]|
  {
    seq(|b|, i requires 0 <= i < |b| => seq(|b[i]|, c requires 0 <= c < |b[i]| => if c < j then a[i][c] else b[i][c]))
  }

  lemma MergeNone(a: Grid<char>, b: Grid<char>)
    requires |a| == |b| && forall i :: 0 <= i < |a| ==> |a[i]| == |b[i]|
    ensures Merge(a, b, 0) == b
  {
    var r := Merge(a, b, 0);
    forall i | 0 <= i < |b| ensures r[i] == b[i] {
    }
  }

  lemma MergeStep(a: Grid<char>, b: Grid<char>, j: nat)
    requires |a| == |b| && forall i :: 0 <= i < |a| ==> |a[i]| == |b[i]| && j < |b[i]|
    ensures Col(Merge(a, b, j), j) == Col(b, j)
    ensures SetCol(Merge(a, b, j), j, Col(a, j)) == Merge(a, b, j + 1)
  {
    var x := SetCol(Merge(a, b, j), j, Col(a, j));
    var y := Merge(a, b, j + 1);
    forall i | 0 <= i < |b| ensures x[i] == y[i] {
    }
  }

  /** The target grid of `perform`. */
  function Target(g: Grid<char>, tilt: bool): (r: Grid<char>)
    requires Wide(g)
    ensures |r| == |g| && forall i :: 0 <= i < |g| ==> |r[i]| == |g[i]|
  {
    if tilt then TiltGrid(g) else g
  }

  lemma TargetCol(g: Grid<char>, tilt: bool, j: nat)
    requires Wide(g) && j < |g[0]|
    ensures Col(Target(g, tilt), j) == if tilt then TiltCol(Col(g, j)) else Col(g, j)
  {
  }

  lemma MergeAll(g: Grid<char>, tilt: bool)
    requires Wide(g)
    ensures Merge(Target(g, tilt), g, |g[0]|) == Target(g, tilt)
  {
    var t := Target(g, tilt);
    var r := Merge(t, g, |g[0]|);
    forall i | 0 <= i < |g| ensures r[i] == t[i] {
    }
  }

  /** One turn of `perform`'s column loop, with column j done by
      `ColumnPass`. */
  lemma PerformStep(g: Grid<char>, tilt: bool, j: nat, lines: Grid<char>, lines': Grid<char>, w: nat)
    requires Wide(g) && j < |g[0]| && lines == Merge(Target(g, tilt), g, j)
    requires forall i :: 0 <= i < |lines| ==> j < |lines[i]|
    requires lines' == SetCol(lines, j, if tilt then TiltCol(Col(lines, j)) else Col(lines, j))
    requires w == ColLoad(if tilt then TiltCol(Col(lines, j)) else Col(lines, j))
    ensures lines' == Merge(Target(g, tilt), g, j + 1)
    ensures LoadCols(Target(g, tilt), j + 1) == LoadCols(Target(g, tilt), j) + w
  {
    MergeStep(Target(g, tilt), g, j);
    TargetCol(g, tilt, j);
  }

  /** The state of `perform`'s column loop once columns 0..j are done:
      they hold the target's columns and `ans` their load. */
  predicate ColumnsDone(g: Grid<char>, tilt: bool, j: nat, lines: Grid<char>, ans: nat)
  {
    Wide(g) && j <= |g[0]| && lines == Merge(Target(g, tilt), g, j) && ans == LoadCols(Target(g, tilt), j)
  }

  /** One turn of `perform`'s column loop: column j passed and its load
      added. */
  method PerformTurn(g: Grid<char>, tilt: bool, j: nat, lines: Grid<char>, ans: nat) returns (lines': Grid<char>, ans': nat)
    requires ColumnsDone(g, tilt, j, lines, ans) && j < |g[0]|
    ensures ColumnsDone(g, tilt, j + 1, lines', ans')
  {
    var w;
    lines', w := ColumnPass(lines, j, tilt);
    PerformStep(g, tilt, j, lines, lines', w);
    ans' := ans + w;
  }

  /** `perform`: every column of the first row's width in turn; with
      `tilt` the grid comes back tilted, without it unchanged, and `ans`
      is the load of the grid returned. */
  method Perform(g: Grid<char>, tilt: bool) returns (lines: Grid<char>, ans: nat)
    requires Wide(g)
    ensures lines == if tilt then TiltGrid(g) else g
    ensures ans == Load(lines)
  {
    var m := |g[0]|;
    MergeNone(Target(g, tilt), g);
    lines := g;
    ans := 0;
    for j := 0 to m
      invariant ColumnsDone(g, tilt, j, lines, ans)
    {
      lines, ans := PerformTurn(g, tilt, j, lines, ans);
    }
    MergeAll(g, tilt);
  }
}
