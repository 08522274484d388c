/** `slice::sort_by` with a comparator that may panic (None), modelled as a
    stable insertion sort over an array: the entries are permuted, the
    result is sorted whenever the sort finishes, and it can only fail on a
    comparison that panics. */
module Sorting {
  import opened Common

  datatype Ordering = Less | Equal | Greater

  /** `Ord::cmp` on integers. */
  function Cmp(a: int, b: int): (r: Ordering)
    ensures r == Less <==> a < b
    ensures r == Greater <==> a > b
  {
    if a < b then Less else if a > b then Greater else Equal
  }

  /** `Ordering::reverse`, lifted to a comparator that may panic. */
  function Reversed(o: Option<Ordering>): Option<Ordering>
  {
    match o
    case None => None
    case Some(Less) => Some(Greater)
    case Some(Greater) => Some(Less)
    case Some(Equal) => Some(Equal)
  }

  /** x may stay in front of y: the comparator answers Less or Equal. */
  predicate NotAfter<T>(cmp: (T, T) -> Option<Ordering>, x: T, y: T)
  {
    cmp(x, y) == Some(Less) || cmp(x, y) == Some(Equal)
  }

  /** Swapping the arguments reverses the answer (and panics alike). */
  ghost predicate Antisymmetric<T(!new)>(cmp: (T, T) -> Option<Ordering>)
  {
    forall x: T, y: T :: cmp(y, x) == Reversed(cmp(x, y))
  }

  ghost predicate Transitive<T(!new)>(cmp: (T, T) -> Option<Ordering>)
  {
    forall x: T, y: T, z: T :: NotAfter(cmp, x, y) && NotAfter(cmp, y, z) ==> NotAfter(cmp, x, z)
  }

  ghost predicate NeverEqual<T(!new)>(cmp: (T, T) -> Option<Ordering>)
  {
    forall x: T, y: T :: cmp(x, y) != Some(Equal)
  }

  /** Every earlier entry may stay in front of every later one. */
  predicate Sorted<T>(cmp: (T, T) -> Option<Ordering>, s: seq<T>)
  {
    forall p, q :: 0 <= p < q < |s| ==> NotAfter(cmp, s[p], s[q])
  }

  /** The comparator answers on every two entries at different places. */
  predicate Comparable<T>(cmp: (T, T) -> Option<Ordering>, s: seq<T>)
  {
    forall p, q :: 0 <= p < |s| && 0 <= q < |s| && p != q ==> cmp(s[p], s[q]).Some?
  }

  /** The first n entries are sorted. */
  predicate SortedUpTo<T>(cmp: (T, T) -> Option<Ordering>, s: seq<T>, n: nat)
  {
    forall p, q :: 0 <= p < q < n && q < |s| ==> NotAfter(cmp, s[p], s[q])
  }

  /** During an insertion into s[..hi + 1]: sorted apart from the entry at j,
      which may stay in front of everything after it. */
  predicate Inserting<T>(cmp: (T, T) -> Option<Ordering>, s: seq<T>, hi: nat, j: nat)
  {
    j <= hi < |s|
    && (forall p, q :: 0 <= p < q <= hi && p != j && q != j ==> NotAfter(cmp, s[p], s[q]))
    && (forall q :: j < q <= hi ==> NotAfter(cmp, s[j], s[q]))
  }

  /** Keys strictly increase along s (the entries' original places). */
  predicate Increasing<T>(key: T -> int, s: seq<T>)
  {
    forall p, q :: 0 <= p < q < |s| ==> key(s[p]) < key(s[q])
  }

  /** Every entry in front of place m has a smaller key than every entry
      from m on. */
  predicate KeysSplit<T>(key: T -> int, s: seq<T>, m: nat)
  {
    forall p, r :: 0 <= p < m <= r < |s| ==> key(s[p]) < key(s[r])
  }

  /** Among the first n entries, two that compare Equal are in key order. */
  predicate StableUpTo<T>(cmp: (T, T) -> Option<Ordering>, key: T -> int, s: seq<T>, n: nat)
  {
    forall p, q :: 0 <= p < q < n && q < |s| && cmp(s[p], s[q]) == Some(Equal) ==> key(s[p]) < key(s[q])
  }

  /** During an insertion into s[..hi + 1]: equal entries other than the
      one at j are in key order, the entry at j has the largest key, and
      it is strictly less than every entry it has passed. */
  predicate StablyInserting<T>(cmp: (T, T) -> Option<Ordering>, key: T -> int, s: seq<T>, hi: nat, j: nat)
  {
    j <= hi < |s|
    && (forall p, q :: 0 <= p < q <= hi && p != j && q != j && cmp(s[p], s[q]) == Some(Equal) ==> key(s[p]) < key(s[q]))
    && (forall p :: 0 <= p <= hi && p != j ==> key(s[p]) < key(s[j]))
    && (forall q :: j < q <= hi ==> cmp(s[j], s[q]) == Some(Less))
  }

  function Swap<T>(s: seq<T>, j: nat): (r: seq<T>)
    requires 0 < j < |s|
    ensures |r| == |s| && multiset(r) == multiset(s)
  {
    s[j - 1 := s[j]][j := s[j - 1]]
  }

  /** Moving the entry at j one place down keeps the insertion invariant
      when it is strictly less than its left neighbour, and keeps every two
      entries comparable. */
  lemma InsertSwap<T>(cmp: (T, T) -> Option<Ordering>, s: seq<T>, hi: nat, j: nat)
    requires 0 < j && Inserting(cmp, s, hi, j) && cmp(s[j], s[j - 1]) == Some(Less)
    ensures Inserting(cmp, Swap(s, j), hi, j - 1)
    ensures Comparable(cmp, s) ==> Comparable(cmp, Swap(s, j))
  {
    var r := Swap(s, j);
    forall p, q | 0 <= p < q <= hi && p != j - 1 && q != j - 1
      ensures NotAfter(cmp, r[p], r[q])
    {
    }
    forall q | j - 1 < q <= hi
      ensures NotAfter(cmp, r[j - 1], r[q])
    {
    }
    if Comparable(cmp, s) {
      forall p, q | 0 <= p < |r| && 0 <= q < |r| && p != q
        ensures cmp(r[p], r[q]).Some?
      {
        var p' := if p == j then j - 1 else if p == j - 1 then j else p;
        var q' := if q == j then j - 1 else if q == j - 1 then j else q;
        assert r[p] == s[p'] && r[q] == s[q'];
      }
    }
  }

  /** Moving the entry at j one place down, past an entry it is strictly
      less than, keeps equal entries in key order. */
  lemma StableSwap<T>(cmp: (T, T) -> Option<Ordering>, key: T -> int, s: seq<T>, hi: nat, j: nat)
    requires 0 < j && StablyInserting(cmp, key, s, hi, j) && cmp(s[j], s[j - 1]) == Some(Less)
    ensures StablyInserting(cmp, key, Swap(s, j), hi, j - 1)
  {
    var r := Swap(s, j);
    forall p, q | 0 <= p < q <= hi && p != j - 1 && q != j - 1 && cmp(r[p], r[q]) == Some(Equal)
      ensures key(r[p]) < key(r[q])
    {
      var p' := if p == j then j - 1 else p;
      var q' := if q == j then j - 1 else q;
      assert r[p] == s[p'] && r[q] == s[q'];
    }
    forall p | 0 <= p <= hi && p != j - 1
      ensures key(r[p]) < key(r[j - 1])
    {
      var p' := if p == j then j - 1 else p;
      assert r[p] == s[p'];
    }
  }

  /** Wherever the insertion stops, equal entries among the first hi + 1
      are in key order. */
  lemma StableStop<T>(cmp: (T, T) -> Option<Ordering>, key: T -> int, s: seq<T>, hi: nat, j: nat)
    requires StablyInserting(cmp, key, s, hi, j)
    ensures StableUpTo(cmp, key, s, hi + 1)
  {
  }

  /** The insertion stops at the front or behind an entry that may stay in
      front of it; then s[..hi + 1] is sorted. */
  lemma InsertStop<T(!new)>(cmp: (T, T) -> Option<Ordering>, s: seq<T>, hi: nat, j: nat)
    requires Transitive(cmp)
    requires Inserting(cmp, s, hi, j)
    requires j > 0 ==> NotAfter(cmp, s[j - 1], s[j])
    ensures SortedUpTo(cmp, s, hi + 1)
  {
    forall p, q | 0 <= p < q < hi + 1 && q < |s|
      ensures NotAfter(cmp, s[p], s[q])
    {
      if q == j && p < j - 1 {
        assert NotAfter(cmp, s[p], s[j - 1]);
      }
    }
  }

  /** One insertion: moves `a[i]` down past the entries strictly greater
      than it, so equal entries keep their order. Stops (false) when the
      comparator panics. */
  method Insert<T(!new)>(a: array<T>, i: nat, cmp: (T, T) -> Option<Ordering>, ghost key: T -> int) returns (ok: bool)
    requires Antisymmetric(cmp) && Transitive(cmp)
    requires 0 < i < a.Length && SortedUpTo(cmp, a[..], i)
    modifies a
    ensures multiset(a[..]) == old(multiset(a[..]))
    ensures ok ==> SortedUpTo(cmp, a[..], i + 1)
    ensures !ok ==> !Comparable(cmp, a[..])
    ensures Comparable(cmp, old(a[..])) ==> Comparable(cmp, a[..])
    ensures a[i + 1..] == old(a[i + 1..])
    ensures KeysSplit(key, old(a[..]), i + 1) ==> KeysSplit(key, a[..], i + 1)
    ensures ok && KeysSplit(key, old(a[..]), i) && KeysSplit(key, old(a[..]), i + 1) && StableUpTo(cmp, key, old(a[..]), i)
      ==> StableUpTo(cmp, key, a[..], i + 1)
  {
    ghost var split := KeysSplit(key, a[..], i + 1);
    ghost var keyed := KeysSplit(key, a[..], i) && split && StableUpTo(cmp, key, a[..], i);
    var j := i;
    while j > 0
      invariant Inserting(cmp, a[..], i, j)
      invariant multiset(a[..]) == old(multiset(a[..]))
      invariant Comparable(cmp, old(a[..])) ==> Comparable(cmp, a[..])
      invariant a[i + 1..] == old(a[i + 1..])
      invariant split ==> KeysSplit(key, a[..], i + 1)
      invariant keyed ==> StablyInserting(cmp, key, a[..], i, j)
    {
      var c := cmp(a[j], a[j - 1]);
      if c.None? {
        assert cmp(a[..][j], a[..][j - 1]).None?;
        return false;
      }
      if c != Some(Less) {
        assert cmp(a[j - 1], a[j]) == Reversed(c);
        InsertStop(cmp, a[..], i, j);
        if keyed {
          StableStop(cmp, key, a[..], i, j);
        }
        return true;
      }
      SwapDown(a, i, j, cmp, key, split, keyed);
      j := j - 1;
    }
    InsertStop(cmp, a[..], i, 0);
    if keyed {
      StableStop(cmp, key, a[..], i, 0);
    }
    return true;
  }

  /** One step of the insertion: the entry at j moves one place down,
      past an entry it is strictly less than. */
  method SwapDown<T(!new)>(a: array<T>, i: nat, j: nat, cmp: (T, T) -> Option<Ordering>, ghost key: T -> int,
                           ghost split: bool, ghost keyed: bool)
    requires 0 < j && Inserting(cmp, a[..], i, j) && cmp(a[j], a[j - 1]) == Some(Less)
    requires split ==> KeysSplit(key, a[..], i + 1)
    requires keyed ==> StablyInserting(cmp, key, a[..], i, j)
    modifies a
    ensures a[..] == Swap(old(a[..]), j)
    ensures Inserting(cmp, a[..], i, j - 1)
    ensures multiset(a[..]) == old(multiset(a[..]))
    ensures Comparable(cmp, old(a[..])) ==> Comparable(cmp, a[..])
    ensures a[i + 1..] == old(a[i + 1..])
    ensures split ==> KeysSplit(key, a[..], i + 1)
    ensures keyed ==> StablyInserting(cmp, key, a[..], i, j - 1)
  {
    ghost var s := a[..];
    InsertSwap(cmp, s, i, j);
    if keyed {
      StableSwap(cmp, key, s, i, j);
    }
    if split {
      SplitSwap(key, s, i, j);
    }
    a[j - 1], a[j] := a[j], a[j - 1];
    assert a[..] == Swap(s, j);
  }

  /** Swapping two entries in front of place hi + 1 keeps the keys there
      smaller than those behind. */
  lemma SplitSwap<T>(key: T -> int, s: seq<T>, hi: nat, j: nat)
    requires 0 < j <= hi < |s| && KeysSplit(key, s, hi + 1)
    ensures KeysSplit(key, Swap(s, j), hi + 1)
  {
    var r := Swap(s, j);
    forall p, t | 0 <= p < hi + 1 <= t < |r|
      ensures key(r[p]) < key(r[t])
    {
      var p' := if p == j then j - 1 else if p == j - 1 then j else p;
      assert r[p] == s[p'] && r[t] == s[t];
    }
  }

  /** `sort_by`: the entries are permuted; when the sort finishes they are
      sorted, and entries that compare Equal keep their order (the sort is
      stable: with `key` giving each entry's original place, equal entries
      stay in key order); it fails (panics) only when two entries are not
      comparable, and never when all of them are. */
  method SortBy<T(!new)>(a: array<T>, cmp: (T, T) -> Option<Ordering>, ghost key: T -> int) returns (ok: bool)
    requires Antisymmetric(cmp) && Transitive(cmp)
    modifies a
    ensures multiset(a[..]) == old(multiset(a[..]))
    ensures ok ==> Sorted(cmp, a[..])
    ensures ok && Increasing(key, old(a[..])) ==> StableUpTo(cmp, key, a[..], a.Length)
    ensures !ok ==> !Comparable(cmp, a[..])
    ensures Comparable(cmp, old(a[..])) ==> ok
  {
    if a.Length == 0 {
      return true;
    }
    ghost var increasing := Increasing(key, a[..]);
    for i := 1 to a.Length
      invariant SortedUpTo(cmp, a[..], i)
      invariant multiset(a[..]) == old(multiset(a[..]))
      invariant Comparable(cmp, old(a[..])) ==> Comparable(cmp, a[..])
      invariant a[i..] == old(a[i..])
      invariant increasing ==> KeysSplit(key, a[..], i) && StableUpTo(cmp, key, a[..], i)
    {
      if increasing {
        KeysNext(key, old(a[..]), a[..], i);
      }
      ok := Insert(a, i, cmp, key);
      if !ok {
        return false;
      }
    }
    return true;
  }

  /** With the entries from place i on untouched, the split of the keys
      moves one place on. */
  lemma KeysNext<T>(key: T -> int, s0: seq<T>, s: seq<T>, i: nat)
    requires Increasing(key, s0) && |s| == |s0| && i < |s| && s[i..] == s0[i..] && KeysSplit(key, s, i)
    ensures KeysSplit(key, s, i + 1)
  {
    forall p, r | 0 <= p < i + 1 <= r < |s|
      ensures key(s[p]) < key(s[r])
    {
      assert s[r] == s[i..][r - i] == s0[r];
      if p == i {
        assert s[i] == s[i..][0] == s0[i];
      }
    }
  }

  /** With a comparator that never answers Equal, a sorted order of a given
      multiset of entries is unique: whichever algorithm sorts them, the
      result is the same. */
  lemma {:induction false} SortedUnique<T(!new)>(cmp: (T, T) -> Option<Ordering>, s: seq<T>, t: seq<T>)
    requires Antisymmetric(cmp) && NeverEqual(cmp)
    requires Sorted(cmp, s) && Sorted(cmp, t) && multiset(s) == multiset(t)
    ensures s == t
    decreases |s|
  {
    assert |s| == |multiset(s)| == |multiset(t)| == |t|;
    if |s| > 0 {
      SortedFirst(cmp, s, t);
      SortedTail(cmp, s);
      SortedTail(cmp, t);
      SortedUnique(cmp, s[1..], t[1..]);
    }
  }

  /** Two sorted orders of the same entries start with the same entry. */
  lemma SortedFirst<T(!new)>(cmp: (T, T) -> Option<Ordering>, s: seq<T>, t: seq<T>)
    requires Antisymmetric(cmp) && NeverEqual(cmp)
    requires Sorted(cmp, s) && Sorted(cmp, t) && multiset(s) == multiset(t) && |s| > 0 && |t| > 0
    ensures s[0] == t[0]
  {
    assert s[0] in multiset(t) && t[0] in multiset(s);
    var m :| 0 <= m < |s| && s[m] == t[0];
    forall k | 0 < k < |t|
      ensures t[k] != s[0]
    {
      assert NotAfter(cmp, t[0], t[k]);
      assert cmp(t[k], t[0]) == Reversed(cmp(t[0], t[k]));
      if m > 0 {
        assert NotAfter(cmp, s[0], s[m]);
      }
    }
  }

  /** Dropping the first entry keeps a sorted order sorted, and removes
      just that entry. */
  lemma SortedTail<T>(cmp: (T, T) -> Option<Ordering>, s: seq<T>)
    requires Sorted(cmp, s) && |s| > 0
    ensures Sorted(cmp, s[1..])
    ensures multiset(s[1..]) == multiset(s) - multiset{s[0]}
  {
    assert s == [s[0]] + s[1..];
    forall p, q | 0 <= p < q < |s| - 1
      ensures NotAfter(cmp, s[1..][p], s[1..][q])
    {
      assert s[1..][p] == s[p + 1] && s[1..][q] == s[q + 1];
    }
  }
}
