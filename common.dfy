/** Small shared vocabulary: an optional value (a panicking Rust expression
    is modelled as `None`) and folds over integer sequences. */
module Common {

  datatype Option<T> = None | Some(value: T)

  /** Collecting the first n optional values: all of them, or None once one
      is missing (a `map` whose closure panics on some element). */
  function CollectUpTo<T>(opts: seq<Option<T>>, n: nat): (r: Option<seq<T>>)
    requires n <= |opts|
    ensures r.Some? ==> |r.value| == n
  {
    if n == 0 then Some([])
    else
      match CollectUpTo(opts, n - 1)
      case None => None
      case Some(init) =>
        match opts[n - 1]
        case None => None
        case Some(x) => Some(init + [x])
  }

  function Collect<T>(opts: seq<Option<T>>): (r: Option<seq<T>>)
    ensures r.Some? ==> |r.value| == |opts|
  {
    CollectUpTo(opts, |opts|)
  }

  /** Collecting succeeds exactly when every value is present, and then
      keeps each value at its place. */
  lemma {:induction false} CollectUpToExact<T>(opts: seq<Option<T>>, n: nat)
    requires n <= |opts|
    ensures CollectUpTo(opts, n).Some? <==> forall k :: 0 <= k < n ==> opts[k].Some?
    ensures CollectUpTo(opts, n).Some? ==> forall k :: 0 <= k < n ==> opts[k] == Some(CollectUpTo(opts, n).value[k])
    decreases n
  {
    if n > 0 {
      CollectUpToExact(opts, n - 1);
    }
  }

  lemma CollectExact<T>(opts: seq<Option<T>>)
    ensures Collect(opts).Some? <==> forall k :: 0 <= k < |opts| ==> opts[k].Some?
    ensures Collect(opts).Some? ==> forall k :: 0 <= k < |opts| ==> opts[k] == Some(Collect(opts).value[k])
  {
    CollectUpToExact(opts, |opts|);
  }

  /** Collecting a prefix only looks at the prefix. */
  lemma {:induction false} CollectUpToPrefix<T>(opts: seq<Option<T>>, more: seq<Option<T>>, n: nat)
    requires n <= |opts|
    ensures CollectUpTo(opts + more, n) == CollectUpTo(opts, n)
    decreases n
  {
    if n > 0 {
      CollectUpToPrefix(opts, more, n - 1);
      assert (opts + more)[n - 1] == opts[n - 1];
    }
  }

  /** Collecting one more value extends the collected sequence, or fails. */
  lemma CollectSnoc<T>(opts: seq<Option<T>>, x: Option<T>)
    ensures Collect(opts + [x]) == match Collect(opts)
      case None => None
      case Some(s) => if x.None? then None else Some(s + [x.value])
  {
    CollectUpToPrefix(opts, [x], |opts|);
    assert (opts + [x])[|opts|] == x;
  }

  /** `filter_map`: the present values, in order. */
  function Present<T>(opts: seq<Option<T>>): (r: seq<T>)
    ensures |r| <= |opts|
  {
    if opts == [] then []
    else Present(opts[..|opts| - 1]) + (if opts[|opts| - 1].Some? then [opts[|opts| - 1].value] else [])
  }

  /** A value is kept exactly when some option holds it, and nothing is
      kept exactly when every option is missing. */
  lemma {:induction false} PresentMembers<T>(opts: seq<Option<T>>)
    ensures forall x :: x in Present(opts) <==> Some(x) in opts
    ensures Present(opts) == [] <==> forall k :: 0 <= k < |opts| ==> opts[k].None?
  {
    if opts != [] {
      var init := opts[..|opts| - 1];
      PresentMembers(init);
      assert opts == init + [opts[|opts| - 1]];
      assert forall k :: 0 <= k < |init| ==> init[k] == opts[k];
    }
  }

  /** `flat_map` / `flatten`: the pieces one after another. */
  function Flatten<T>(pieces: seq<seq<T>>): (r: seq<T>)
  {
    if pieces == [] then [] else Flatten(pieces[..|pieces| - 1]) + pieces[|pieces| - 1]
  }

  /** The union of a sequence of sets, taken from the front. */
  function UnionAll<T>(sets: seq<set<T>>): set<T>
  {
    if sets == [] then {} else UnionAll(sets[..|sets| - 1]) + sets[|sets| - 1]
  }

  /** A member of the union is a member of one of the sets. */
  lemma {:induction false} UnionAllMembers<T>(sets: seq<set<T>>, x: T)
    ensures x in UnionAll(sets) <==> exists r :: 0 <= r < |sets| && x in sets[r]
    decreases |sets|
  {
    if sets != [] {
      var init := sets[..|sets| - 1];
      UnionAllMembers(init, x);
      if exists r :: 0 <= r < |sets| && x in sets[r] {
        var r :| 0 <= r < |sets| && x in sets[r];
        if r < |init| {
          assert x in init[r];
        }
      }
      if exists r :: 0 <= r < |init| && x in init[r] {
        var r :| 0 <= r < |init| && x in init[r];
        assert x in sets[r];
      }
    }
  }

  /** The map after inserting the keyed values in order: later entries
      overwrite earlier ones with the same key; None once an entry is
      missing (a line that failed to parse). */
  function InsertAll<K(==), V>(ws: seq<Option<(K, V)>>): Option<map<K, V>>
  {
    if ws == [] then Some(map[])
    else
      match InsertAll(ws[..|ws| - 1])
      case None => None
      case Some(m) =>
        match ws[|ws| - 1]
        case None => None
        case Some(w) => Some(m[w.0 := w.1])
  }

  /** Entry k is present and has key `name`. */
  predicate Names<K(==), V>(ws: seq<Option<(K, V)>>, k: int, name: K)
  {
    0 <= k < |ws| && ws[k].Some? && ws[k].value.0 == name
  }

  /** Entry k is the last one naming `name`. */
  predicate LastNames<K(==), V>(ws: seq<Option<(K, V)>>, k: int, name: K)
  {
    Names(ws, k, name) && forall j :: k < j < |ws| ==> !Names(ws, j, name)
  }

  /** The map exists exactly when every entry is present. */
  lemma {:induction false} InsertAllSome<K, V>(ws: seq<Option<(K, V)>>)
    ensures InsertAll(ws).Some? <==> forall k :: 0 <= k < |ws| ==> ws[k].Some?
  {
    if ws != [] {
      var n := |ws| - 1;
      InsertAllSome(ws[..n]);
      assert forall k :: 0 <= k < n ==> ws[..n][k] == ws[k];
    }
  }

  /** Every key of an entry is in the map and nothing else is, and a name maps
      to the value of the last entry with that key. */
  lemma {:induction false} InsertAllLastWins<K, V>(ws: seq<Option<(K, V)>>, name: K)
    requires InsertAll(ws).Some?
    ensures name in InsertAll(ws).value <==> exists k :: Names(ws, k, name)
    ensures forall k :: LastNames(ws, k, name) ==> InsertAll(ws).value[name] == ws[k].value.1
  {
    if ws != [] {
      var n := |ws| - 1;
      var init := ws[..n];
      InsertAllLastWins(init, name);
      assert forall k :: 0 <= k < n ==> (Names(init, k, name) <==> Names(ws, k, name));
      if !Names(ws, n, name) {
        forall k | LastNames(ws, k, name)
          ensures LastNames(init, k, name)
        {
          assert k != n;
        }
        if name in InsertAll(ws).value {
          var k :| Names(init, k, name);
          assert Names(ws, k, name);
        }
      } else {
        forall k | LastNames(ws, k, name)
          ensures k == n
        {
        }
      }
    }
  }

  lemma InsertStep<K, V>(ws: seq<Option<(K, V)>>, i: nat)
    requires i < |ws|
    ensures InsertAll(ws[..i + 1]) == match InsertAll(ws[..i])
      case None => None
      case Some(m) => if ws[i].None? then None else Some(m[ws[i].value.0 := ws[i].value.1])
  {
    assert ws[..i + 1][..i] == ws[..i];
  }
  /** `Iterator::sum` over a sequence, folded from the left starting at 0. */
  function Sum(s: seq<int>): int
  {
    if s == [] then 0 else Sum(s[..|s| - 1]) + s[|s| - 1]
  }

  /** `Iterator::product` over a sequence, folded from the left starting at 1. */
  function Product(s: seq<int>): int
  {
    if s == [] then 1 else Product(s[..|s| - 1]) * s[|s| - 1]
  }

  lemma {:induction false} SumAppend(a: seq<int>, b: seq<int>)
    ensures Sum(a + b) == Sum(a) + Sum(b)
    decreases |b|
  {
    if b == [] {
      assert a + b == a;
    } else {
      assert (a + b)[..|a + b| - 1] == a + b[..|b| - 1];
      SumAppend(a, b[..|b| - 1]);
    }
  }

  lemma {:induction false} SumNonNegative(s: seq<int>)
    requires forall i :: 0 <= i < |s| ==> s[i] >= 0
    ensures Sum(s) >= 0
    decreases |s|
  {
    if s != [] {
      SumNonNegative(s[..|s| - 1]);
    }
  }

  /** The largest element of a non-empty sequence (`Iterator::max`). */
  function MaxOf(s: seq<int>): (m: int)
    requires |s| > 0
    ensures m in s
    ensures forall i :: 0 <= i < |s| ==> s[i] <= m
  {
    if |s| == 1 then s[0]
    else
      var m' := MaxOf(s[..|s| - 1]);
      if s[|s| - 1] > m' then s[|s| - 1] else m'
  }

  /** The smallest element of a non-empty sequence (`Iterator::min`). */
  function MinOf(s: seq<int>): (m: int)
    requires |s| > 0
    ensures m in s
    ensures forall i :: 0 <= i < |s| ==> m <= s[i]
  {
    if |s| == 1 then s[0]
    else
      var m' := MinOf(s[..|s| - 1]);
      if s[|s| - 1] < m' then s[|s| - 1] else m'
  }

  /** Two to the power `k`. */
  function Pow2(k: nat): (r: nat)
    ensures r >= 1
  {
    if k == 0 then 1 else 2 * Pow2(k - 1)
  }

  function Abs(x: int): (r: nat)
    ensures r == x || r == -x
  {
    if x < 0 then -x else x
  }

  /** `f` applied `k` times to `x`, the first application innermost. */
  function Iterate<T>(f: T -> T, x: T, k: nat): T
  {
    if k == 0 then x else Iterate(f, f(x), k - 1)
  }

  /** One more step is one more application on the outside. */
  lemma {:induction false} IterateNext<T>(f: T -> T, x: T, k: nat, n: nat)
    requires n == k + 1
    ensures Iterate(f, x, n) == f(Iterate(f, x, k))
    decreases k
  {
    if k > 0 {
      IterateNext(f, f(x), k - 1, k);
    }
  }

  /** Applying `f` a + b times is applying it a times, then b times. */
  lemma {:induction false} IterateAdd<T>(f: T -> T, x: T, a: nat, b: nat)
    ensures Iterate(f, x, a + b) == Iterate(f, Iterate(f, x, a), b)
    decreases a
  {
    if a > 0 {
      IterateAdd(f, f(x), a - 1, b);
    }
  }

  /** A property `f` preserves holds after any number of steps. */
  lemma {:induction false} IterateInvariant<T>(f: T -> T, x: T, k: nat, inv: T -> bool)
    requires inv(x) && forall y :: inv(y) ==> inv(f(y))
    ensures inv(Iterate(f, x, k))
    decreases k
  {
    if k > 0 {
      IterateInvariant(f, f(x), k - 1, inv);
    }
  }

  /** A property `f` preserves and establishes holds after one or more
      steps. */
  lemma IterateFromOne<T>(f: T -> T, x: T, k: nat, inv: T -> bool)
    requires k >= 1 && inv(f(x)) && forall y :: inv(y) ==> inv(f(y))
    ensures inv(Iterate(f, x, k))
  {
    IterateInvariant(f, f(x), k - 1, inv);
  }

  /** Once the value after a = b + len steps equals the value after b
      steps, every index b plus a multiple of `len` gives that value
      again. */
  lemma {:induction false} IterateJump<T>(f: T -> T, x: T, a: nat, b: nat, len: nat, j: nat)
    requires len >= 1 && a == b + len && b <= j && Multiple(j - b, len)
    requires Iterate(f, x, a) == Iterate(f, x, b)
    ensures Iterate(f, x, j) == Iterate(f, x, a)
    decreases j - b
  {
    if j > b {
      assert Multiple((j - len) - b, len);
      IterateJump(f, x, a, b, len, j - len);
      IterateAdd(f, x, j - len, len);
      IterateAdd(f, x, b, len);
    }
  }

  /** The same, for a repeat of step s + 1 at step c + 1. */
  lemma IterateRepeat<T>(f: T -> T, x: T, s: nat, c: nat, a: nat, b: nat, j: nat)
    requires s < c < j && a == c + 1 && b == s + 1 && Multiple(j - (s + 1), c - s)
    requires Iterate(f, x, a) == Iterate(f, x, b)
    ensures Iterate(f, x, j) == Iterate(f, x, a)
  {
    MultipleShift(j - b, j - (s + 1), c - s);
    IterateJump(f, x, a, b, c - s, j);
  }

  /** x is a whole number of steps of length `len`. */
  predicate Multiple(x: nat, len: nat)
    requires len >= 1
    decreases x
  {
    x == 0 || (x >= len && Multiple(x - len, len))
  }

  lemma MultipleShift(x: nat, y: nat, len: nat)
    requires len >= 1 && x == y && Multiple(y, len)
    ensures Multiple(x, len)
  {
  }

  lemma {:induction false} MultipleOf(q: nat, len: nat)
    requires len >= 1
    ensures Multiple(q * len, len)
    decreases q
  {
    if q > 0 {
      MultipleOf(q - 1, len);
      assert q * len - len == (q - 1) * len;
    }
  }

  lemma {:induction false} MulAtLeast(a: nat, len: nat)
    requires a >= 1
    ensures a * len >= len
    decreases a
  {
    if a > 1 {
      MulAtLeast(a - 1, len);
      assert a * len == (a - 1) * len + len;
    }
  }

  /** A subset is no larger. */
  lemma {:induction false} SubsetSize<T>(a: set<T>, b: set<T>)
    requires a <= b
    ensures |a| <= |b|
    decreases |a|
  {
    if a != {} {
      var x :| x in a;
      SubsetSize(a - {x}, b - {x});
    }
  }

  /** A set inside another with one of its members removed is smaller. */
  lemma RemoveSmaller<T>(a: set<T>, b: set<T>, c: T)
    requires a <= b - {c} && c in b
    ensures |a| < |b|
  {
    SubsetSize(a, b - {c});
  }
}
