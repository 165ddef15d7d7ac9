/** JavaScript number helpers (Math.min, Math.max, Math.round, Array reduce) over exact reals. */
module Numbers {

  function Min(a: real, b: real): real { if a <= b then a else b }

  function Max(a: real, b: real): real { if a >= b then a else b }

  /** Math.abs */
  function Abs(x: real): real { if x < 0.0 then -x else x }

  /** Math.round on a finite number: the nearest integer, halves rounded up. */
  function Round(x: real): (r: int)
    ensures x - 0.5 < r as real <= x + 0.5
  {
    (x + 0.5).Floor
  }

  /** `xs.reduce((sum, x) => sum + x, 0)` */
  function Sum(xs: seq<real>): real
  {
    if xs == [] then 0.0 else Sum(xs[..|xs| - 1]) + xs[|xs| - 1]
  }

  /** `Math.max(...xs)` on a non-empty list. */
  function Largest(xs: seq<real>): (r: real)
    requires |xs| > 0
    ensures r in xs
    ensures forall x | x in xs :: x <= r
  {
    if |xs| == 1 then xs[0]
    else
      var init := xs[..|xs| - 1];
      assert xs == init + [xs[|xs| - 1]];
      Max(Largest(init), xs[|xs| - 1])
  }

  /** `Math.min(...xs)` on a non-empty list. */
  function Smallest(xs: seq<real>): (r: real)
    requires |xs| > 0
    ensures r in xs
    ensures forall x | x in xs :: r <= x
  {
    if |xs| == 1 then xs[0]
    else
      var init := xs[..|xs| - 1];
      assert xs == init + [xs[|xs| - 1]];
      Min(Smallest(init), xs[|xs| - 1])
  }

  lemma ScaleLt(c: real, a: real, b: real)
    requires c > 0.0 && a < b
    ensures c * a < c * b
  {
    assert c * b - c * a == c * (b - a);
  }

  lemma StepAbove(k: real, lo: real, loInit: real, sumInit: real, last: real)
    requires k >= 0.0 && lo <= loInit && lo <= last
    requires k * loInit <= sumInit
    ensures (k + 1.0) * lo <= sumInit + last
  {
    assert k * loInit - k * lo == k * (loInit - lo);
  }

  lemma StepBelow(k: real, hi: real, hiInit: real, sumInit: real, last: real)
    requires k >= 0.0 && hiInit <= hi && last <= hi
    requires sumInit <= k * hiInit
    ensures sumInit + last <= (k + 1.0) * hi
  {
    assert k * hi - k * hiInit == k * (hi - hiInit);
  }

  /** The sum of n values is at least n times the smallest. */
  lemma {:induction false} SumAbove(xs: seq<real>)
    requires |xs| > 0
    ensures |xs| as real * Smallest(xs) <= Sum(xs)
  {
    if |xs| > 1 {
      var init, last := xs[..|xs| - 1], xs[|xs| - 1];
      var lo, loInit := Smallest(xs), Smallest(init);
      var k := |init| as real;
      assert k * loInit <= Sum(init) by { SumAbove(init); }
      assert lo <= loInit && lo <= last by {
        assert xs == init + [last];
        assert loInit in xs && last in xs;
      }
      StepAbove(k, lo, loInit, Sum(init), last);
      assert |xs| as real == k + 1.0;
    }
  }

  /** The sum of n values is at most n times the largest. */
  lemma {:induction false} SumBelow(xs: seq<real>)
    requires |xs| > 0
    ensures Sum(xs) <= |xs| as real * Largest(xs)
  {
    if |xs| > 1 {
      var init, last := xs[..|xs| - 1], xs[|xs| - 1];
      var hi, hiInit := Largest(xs), Largest(init);
      var k := |init| as real;
      assert Sum(init) <= k * hiInit by { SumBelow(init); }
      assert hiInit <= hi && last <= hi by {
        assert xs == init + [last];
        assert hiInit in xs && last in xs;
      }
      StepBelow(k, hi, hiInit, Sum(init), last);
      assert |xs| as real == k + 1.0;
    }
  }

  lemma DivBetween(s: real, n: real, lo: real, hi: real)
    requires n > 0.0 && n * lo <= s <= n * hi
    ensures lo <= s / n <= hi
  {
    var m := s / n;
    assert n * m == s;
    if m < lo { ScaleLt(n, m, lo); }
    if m > hi { ScaleLt(n, hi, m); }
  }

  /** The mean of a non-empty list lies between its smallest and largest value. */
  lemma {:induction false} MeanBetween(xs: seq<real>)
    requires |xs| > 0
    ensures Smallest(xs) <= Sum(xs) / |xs| as real <= Largest(xs)
  {
    var n, s, lo, hi := |xs| as real, Sum(xs), Smallest(xs), Largest(xs);
    assert n * lo <= s by { SumAbove(xs); }
    assert s <= n * hi by { SumBelow(xs); }
    DivBetween(s, n, lo, hi);
  }
}
