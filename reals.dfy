/** Squares of reals and an uninterpreted square root. */
module Reals {

  /** The identity, used as the second factor of `Sq`. */
  function Copy(x: real): real
  {
    x
  }

  /** x² */
  function Sq(x: real): real
  {
    x * Copy(x)
  }

  lemma SqPositive(x: real)
    requires x != 0.0
    ensures Sq(x) > 0.0
  {
    if x > 0.0 {
      assert x * Copy(x) > 0.0;
    } else {
      assert x * Copy(x) > 0.0;
    }
  }

  lemma SqNonNegative(x: real)
    ensures Sq(x) >= 0.0
  {
    if x != 0.0 {
      SqPositive(x);
    }
  }

  /** A square vanishes exactly at zero. */
  lemma SqIsZero(x: real)
    ensures Sq(x) == 0.0 <==> x == 0.0
  {
    if x != 0.0 {
      SqPositive(x);
    }
  }

  /** (f·x)² = f²·x² */
  lemma SqOfProduct(f: real, x: real)
    ensures Sq(f * x) == Sq(f) * Sq(x)
  {
  }

  /** k·l = k·a + k·b when l = a + b. */
  lemma MulOfSum(k: real, l: real, a: real, b: real)
    requires l == a + b
    ensures k * l == k * a + k * b
  {
  }

  lemma SqOfScaled(y: real, f: real, x: real)
    requires y == f * x
    ensures Sq(y) == Sq(f) * Sq(x)
  {
    SqOfProduct(f, x);
  }

  /** (a + t)² = a² + 2·a·t + t² */
  lemma SqOfSum(a: real, t: real)
    ensures Sq(a + t) == Sq(a) + 2.0 * a * t + Sq(t)
  {
  }

  /** `sqrt` agrees with the square root on every non-negative real. */
  ghost predicate IsSqrt(sqrt: real -> real)
  {
    forall v: real :: 0.0 <= v ==> 0.0 <= sqrt(v) && Sq(sqrt(v)) == v
  }

  /** x₀ + x₁ + … + xₙ₋₁, added up from the front. */
  function Total(xs: seq<real>): real
  {
    if xs == [] then 0.0 else Total(xs[..|xs| - 1]) + xs[|xs| - 1]
  }

  lemma {:induction false} TotalNonNegative(xs: seq<real>)
    requires forall i :: 0 <= i < |xs| ==> xs[i] >= 0.0
    ensures Total(xs) >= 0.0
  {
    if xs != [] {
      TotalNonNegative(xs[..|xs| - 1]);
    }
  }

  /** A sum of non-negative terms vanishes exactly when every term does. */
  lemma {:induction false} TotalZero(xs: seq<real>)
    requires forall i :: 0 <= i < |xs| ==> xs[i] >= 0.0
    ensures Total(xs) == 0.0 <==> forall i :: 0 <= i < |xs| ==> xs[i] == 0.0
  {
    if xs != [] {
      var init := xs[..|xs| - 1];
      TotalZero(init);
      TotalNonNegative(init);
      assert forall i :: 0 <= i < |init| ==> init[i] == xs[i];
    }
  }

  /** Multiplying every term by k multiplies the sum by k. */
  lemma {:induction false} TotalScaled(xs: seq<real>, ys: seq<real>, k: real)
    requires |xs| == |ys|
    requires forall i :: 0 <= i < |xs| ==> ys[i] == k * xs[i]
    ensures Total(ys) == k * Total(xs)
  {
    if xs != [] {
      var n := |xs| - 1;
      TotalScaled(xs[..n], ys[..n], k);
      var a, b := Total(xs[..n]), xs[n];
      assert k * (a + b) == k * a + k * b;
    }
  }

  /** Adding e to one term adds e to the sum. */
  lemma {:induction false} TotalUpdate(xs: seq<real>, j: nat, e: real)
    requires j < |xs|
    ensures Total(xs[j := xs[j] + e]) == Total(xs) + e
  {
    var n := |xs| - 1;
    var ys := xs[j := xs[j] + e];
    assert ys[..n] == if j == n then xs[..n] else xs[..n][j := xs[j] + e];
    if j < n {
      TotalUpdate(xs[..n], j, e);
    }
  }
}
