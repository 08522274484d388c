/** The greatest common divisor swap loop shared by days 8 and 20, and the
    least-common-multiple fold both of them use to combine cycle lengths. */
module Arith {
  import opened Common

  /** `d` is a positive divisor of `n`. */
  predicate Divides(d: nat, n: nat)
  {
    d > 0 && n % d == 0
  }

  lemma DividesMultiple(d: nat, k: nat)
    requires d > 0
    ensures Divides(d, d * k)
  {
  }

  lemma DividesQuotient(d: nat, n: nat)
    requires Divides(d, n)
    ensures n == d * (n / d)
  {
  }

  lemma DividesTransitive(a: nat, b: nat, c: nat)
    requires Divides(a, b) && Divides(b, c)
    ensures Divides(a, c)
  {
    DividesQuotient(a, b);
    DividesQuotient(b, c);
    var x, y := b / a, c / b;
    assert c == a * (x * y);
    DividesMultiple(a, x * y);
  }

  /** Common divisors survive the step `b % a`. */
  lemma DividesMod(d: nat, a: nat, b: nat)
    requires a > 0 && Divides(d, a) && Divides(d, b)
    ensures Divides(d, b % a)
  {
    DividesQuotient(d, a);
    DividesQuotient(d, b);
    var x, y, q := a / d, b / d, b / a;
    assert b % a == b - q * a;
    assert b % a == d * y - q * (d * x);
    assert b % a == d * (y - q * x);
    DividesMultiple(d, y - q * x);
  }

  /** And they come back: a divisor of `a` and `b % a` divides `b`. */
  lemma DividesFromMod(d: nat, a: nat, b: nat)
    requires a > 0 && Divides(d, a) && Divides(d, b % a)
    ensures Divides(d, b)
  {
    DividesQuotient(d, a);
    DividesQuotient(d, b % a);
    var x, z, q := a / d, (b % a) / d, b / a;
    assert b == q * a + b % a;
    assert b == d * (q * x + z);
    DividesMultiple(d, q * x + z);
  }

  /** Two positive numbers that divide each other are equal. */
  lemma DividesAntisymmetric(a: nat, b: nat)
    requires Divides(a, b) && Divides(b, a)
    ensures a == b
  {
    DividesQuotient(a, b);
    DividesQuotient(b, a);
    if b > 0 && a > 0 {
      assert b / a >= 1;
      assert a / b >= 1;
      assert b >= a by {
        assert a * (b / a) >= a * 1;
      }
      assert a >= b by {
        assert b * (a / b) >= b * 1;
      }
    }
  }

  /** Euclid's recursion, the reference definition of the gcd. */
  function Gcd(a: nat, b: nat): nat
    decreases a
  {
    if a == 0 then b else Gcd(b % a, a)
  }

  /** The gcd of two numbers not both zero divides each of them. */
  lemma {:induction false} GcdDivides(a: nat, b: nat)
    requires a > 0 || b > 0
    ensures Divides(Gcd(a, b), a) && Divides(Gcd(a, b), b)
    decreases a
  {
    if a > 0 {
      GcdDivides(b % a, a);
      DividesFromMod(Gcd(a, b), a, b);
    }
  }

  /** Every common divisor divides the gcd: it is the greatest one. */
  lemma {:induction false} GcdGreatest(a: nat, b: nat, d: nat)
    requires Divides(d, a) && Divides(d, b)
    ensures Divides(d, Gcd(a, b))
    decreases a
  {
    if a > 0 {
      DividesMod(d, a, b);
      GcdGreatest(b % a, a, d);
    }
  }

  /** The gcd of positive numbers is positive. */
  lemma GcdPositive(a: nat, b: nat)
    requires a > 0 || b > 0
    ensures Gcd(a, b) > 0
  {
    GcdDivides(a, b);
  }

  /** `gcd`: while `a` is not zero, put the larger value in `a` and reduce
      it modulo `b`, then return `b`. With `a` non-zero and `b` zero the
      first `a %= b` divides by zero. */
  method GcdLoop(a0: nat, b0: nat) returns (r: Option<nat>)
    ensures r.None? <==> a0 != 0 && b0 == 0
    ensures r.Some? ==> r.value == Gcd(a0, b0)
  {
    var a, b := a0, b0;
    while a != 0
      invariant b > 0 || (a == a0 && b == b0)
      invariant a0 != 0 && b0 == 0 ==> a == a0 && b == 0
      invariant forall d :: Divides(d, a) && Divides(d, b) <==> Divides(d, a0) && Divides(d, b0)
      decreases a
    {
      if a < b {
        a, b := b, a;
      }
      if b == 0 {
        return None;
      }
      forall d | Divides(d, a) && Divides(d, b) ensures Divides(d, a % b) {
        DividesMod(d, b, a);
      }
      forall d | Divides(d, a % b) && Divides(d, b) ensures Divides(d, a) {
        DividesFromMod(d, b, a);
      }
      a := a % b;
    }
    if b0 == 0 && a0 == 0 {
      return Some(0);
    }
    assert b > 0;
    GcdDivides(a0, b0);
    var g := Gcd(a0, b0);
    assert Divides(g, b);
    assert Divides(b, a0) && Divides(b, b0) by {
      assert Divides(b, a) && Divides(b, b);
    }
    GcdGreatest(a0, b0, b);
    DividesAntisymmetric(g, b);
    return Some(b);
  }

  /** One step of the fold: `ans * x / gcd(ans, x)`, a common multiple of
      both. */
  function LcmStep(a: nat, x: nat): (m: nat)
    requires a > 0 && x > 0
    ensures m > 0 && Divides(a, m) && Divides(x, m)
  {
    GcdDivides(a, x);
    var g := Gcd(a, x);
    DividesQuotient(g, a);
    DividesQuotient(g, x);
    assert a * x == g * ((a / g) * x);
    assert a * x / g == (a / g) * x by {
      DivOfMultiple(g, (a / g) * x);
    }
    assert (a / g) * x == a * (x / g) by {
      assert (a / g) * x == (a / g) * (g * (x / g));
      assert a * (x / g) == (g * (a / g)) * (x / g);
    }
    DividesMultiple(a, x / g);
    assert (a / g) * x == x * (a / g);
    DividesMultiple(x, a / g);
    assert (a / g) >= 1;
    MulPositive(a / g, x);
    a * x / g
  }

  lemma DivOfMultiple(g: nat, k: nat)
    requires g > 0
    ensures (g * k) / g == k
  {
    DividesMultiple(g, k);
    DividesQuotient(g, g * k);
    var q := (g * k) / g;
    assert g * q == g * k;
  }

  lemma MulPositive(a: nat, b: nat)
    requires a > 0 && b > 0
    ensures a * b > 0
  {
  }

  /** `fold(1, |ans, x| ans * x / gcd(ans, x))`: None when some value is
      zero, where `gcd(ans, 0)` divides by zero. */
  function LcmFold(xs: seq<nat>): (r: Option<nat>)
    ensures r.Some? <==> forall k :: 0 <= k < |xs| ==> xs[k] > 0
    ensures r.Some? ==> r.value > 0
  {
    if xs == [] then Some(1)
    else
      match LcmFold(xs[..|xs| - 1])
      case None => None
      case Some(a) =>
        if xs[|xs| - 1] == 0 then None else Some(LcmStep(a, xs[|xs| - 1]))
  }

  lemma LcmStepIs(a: nat, x: nat, g: nat)
    requires a > 0 && x > 0 && g == Gcd(a, x)
    ensures g > 0 && a * x / g == LcmStep(a, x)
  {
    GcdPositive(a, x);
  }

  /** The fold run step by step with the gcd loop: a zero value makes
      `gcd(ans, 0)` divide by zero, and otherwise every step is
      `LcmStep`. */
  method LcmLoop(xs: seq<nat>) returns (r: Option<nat>)
    ensures r == LcmFold(xs)
  {
    var ans := 1;
    var i := 0;
    while i < |xs|
      invariant i <= |xs|
      invariant LcmFold(xs[..i]) == Some(ans)
    {
      var g := GcdLoop(ans, xs[i]);
      if g.None? {
        return None;
      }
      assert xs[..i + 1][..i] == xs[..i];
      assert xs[i] > 0;
      LcmStepIs(ans, xs[i], g.value);
      ans := ans * xs[i] / g.value;
      i := i + 1;
    }
    assert xs[..|xs|] == xs;
    return Some(ans);
  }

  /** The folded value is a common multiple of every value. */
  lemma {:induction false} LcmFoldMultiple(xs: seq<nat>, k: nat)
    requires LcmFold(xs).Some? && k < |xs|
    ensures Divides(xs[k], LcmFold(xs).value)
    decreases |xs|
  {
    var init := xs[..|xs| - 1];
    var a := LcmFold(init).value;
    if k < |xs| - 1 {
      LcmFoldMultiple(init, k);
      assert init[k] == xs[k];
      DividesTransitive(xs[k], a, LcmFold(xs).value);
    }
  }
}
