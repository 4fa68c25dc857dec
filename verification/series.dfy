/** Exact arithmetic over finite sequences of reals: the sums, extrema and
    counts that the rolling indicators are built from. */
module Series {

  /** Sum of a sequence, accumulated from the last element backwards so that
      extending a window on the right adds exactly one term. */
  function Sum(xs: seq<real>): real
  {
    if |xs| == 0 then 0.0 else Sum(xs[..|xs| - 1]) + xs[|xs| - 1]
  }

  /** Arithmetic mean of a non-empty sequence. */
  function Mean(xs: seq<real>): real
    requires |xs| > 0
  {
    Sum(xs) / |xs| as real
  }

  /** Least element of a non-empty sequence. */
  function MinOf(xs: seq<real>): (m: real)
    requires |xs| > 0
    ensures m in xs
    ensures forall i :: 0 <= i < |xs| ==> m <= xs[i]
  {
    if |xs| == 1 then xs[0]
    else
      var rest := MinOf(xs[1..]);
      assert forall i :: 1 <= i < |xs| ==> xs[i] == xs[1..][i - 1];
      if xs[0] <= rest then xs[0] else rest
  }

  /** Greatest element of a non-empty sequence. */
  function MaxOf(xs: seq<real>): (m: real)
    requires |xs| > 0
    ensures m in xs
    ensures forall i :: 0 <= i < |xs| ==> xs[i] <= m
  {
    if |xs| == 1 then xs[0]
    else
      var rest := MaxOf(xs[1..]);
      assert forall i :: 1 <= i < |xs| ==> xs[i] == xs[1..][i - 1];
      if xs[0] >= rest then xs[0] else rest
  }

  /** Number of elements strictly below `bound`. */
  function CountBelow(xs: seq<real>, bound: real): (n: nat)
    ensures n <= |xs|
  {
    if |xs| == 0 then 0
    else CountBelow(xs[..|xs| - 1], bound) + (if xs[|xs| - 1] < bound then 1 else 0)
  }

  /** A value that is itself in the sequence is not counted as below itself,
      so strictly fewer than all elements lie below it. */
  lemma {:induction false} CountBelowMember(xs: seq<real>, v: real)
    requires v in xs
    ensures CountBelow(xs, v) < |xs|
  {
    var last := |xs| - 1;
    if xs[last] != v {
      assert v in xs[..last] by {
        var k :| 0 <= k < |xs| && xs[k] == v;
        assert xs[..last][k] == v;
      }
      CountBelowMember(xs[..last], v);
    }
  }

  /** Summing a sequence whose elements are all at most `hi` gives at most
      |xs|·hi. */
  lemma {:induction false} SumUpper(xs: seq<real>, hi: real)
    requires forall i :: 0 <= i < |xs| ==> xs[i] <= hi
    ensures Sum(xs) <= |xs| as real * hi
  {
    if |xs| > 0 {
      var init := xs[..|xs| - 1];
      assert forall i :: 0 <= i < |init| ==> init[i] == xs[i];
      SumUpper(init, hi);
      assert |xs| as real * hi == |init| as real * hi + hi;
    }
  }

  /** Summing a sequence whose elements are all at least `lo` gives at least
      |xs|·lo. */
  lemma {:induction false} SumLower(xs: seq<real>, lo: real)
    requires forall i :: 0 <= i < |xs| ==> lo <= xs[i]
    ensures |xs| as real * lo <= Sum(xs)
  {
    if |xs| > 0 {
      var init := xs[..|xs| - 1];
      assert forall i :: 0 <= i < |init| ==> init[i] == xs[i];
      SumLower(init, lo);
      assert |xs| as real * lo == |init| as real * lo + lo;
    }
  }

  /** If every element is at most `hi` and one is strictly below it, the sum
      is strictly below |xs|·hi. */
  lemma {:induction false} SumStrictUpper(xs: seq<real>, hi: real, k: nat)
    requires forall i :: 0 <= i < |xs| ==> xs[i] <= hi
    requires k < |xs| && xs[k] < hi
    ensures Sum(xs) < |xs| as real * hi
  {
    var last := |xs| - 1;
    var init := xs[..last];
    assert forall i :: 0 <= i < |init| ==> init[i] == xs[i];
    assert |xs| as real * hi == |init| as real * hi + hi;
    if k == last {
      SumUpper(init, hi);
    } else {
      SumStrictUpper(init, hi, k);
    }
  }

  /** A sum of non-negative terms is non-negative, and it is zero only when
      every term is zero. */
  lemma {:induction false} SumNonNegative(xs: seq<real>)
    requires forall i :: 0 <= i < |xs| ==> xs[i] >= 0.0
    ensures Sum(xs) >= 0.0
    ensures Sum(xs) == 0.0 ==> forall i :: 0 <= i < |xs| ==> xs[i] == 0.0
  {
    if |xs| > 0 {
      var init := xs[..|xs| - 1];
      assert forall i :: 0 <= i < |init| ==> init[i] == xs[i];
      SumNonNegative(init);
    }
  }

  /** Peeling the first element off a sum. */
  lemma {:induction false} SumFront(xs: seq<real>)
    requires |xs| > 0
    ensures Sum(xs) == xs[0] + Sum(xs[1..])
  {
    if |xs| > 1 {
      var init := xs[..|xs| - 1];
      SumFront(init);
      assert init[1..] == xs[1..][..|xs[1..]| - 1];
    } else {
      assert xs[1..] == [];
    }
  }

  /** The sum of a constant sequence. */
  lemma {:induction false} SumConstant(xs: seq<real>, c: real)
    requires forall i :: 0 <= i < |xs| ==> xs[i] == c
    ensures Sum(xs) == |xs| as real * c
  {
    if |xs| > 0 {
      var init := xs[..|xs| - 1];
      assert forall i :: 0 <= i < |init| ==> init[i] == xs[i];
      SumConstant(init, c);
    }
  }

  /** The mean of values all lying in [lo, hi] lies in [lo, hi]. */
  lemma MeanBounds(xs: seq<real>, lo: real, hi: real)
    requires |xs| > 0
    requires forall i :: 0 <= i < |xs| ==> lo <= xs[i] <= hi
    ensures lo <= Mean(xs) <= hi
  {
    var n := |xs| as real;
    SumLower(xs, lo);
    SumUpper(xs, hi);
    ScaledBounds(Sum(xs), n, lo, hi);
  }

  /** Dividing n·lo ≤ s ≤ n·hi by n > 0. */
  lemma ScaledBounds(s: real, n: real, lo: real, hi: real)
    requires n > 0.0 && n * lo <= s <= n * hi
    ensures lo <= s / n <= hi
  {
    var m := s / n;
    assert s == m * n;
    assert (m - lo) * n == s - lo * n >= 0.0;
    assert (hi - m) * n == hi * n - s >= 0.0;
  }

  /** The mean of a constant sequence is that constant. */
  lemma MeanConstant(xs: seq<real>, c: real)
    requires |xs| > 0
    requires forall i :: 0 <= i < |xs| ==> xs[i] == c
    ensures Mean(xs) == c
  {
    MeanBounds(xs, c, c);
  }

  /** A mean of non-negative values is non-negative, and zero exactly when the
      sum is. */
  lemma MeanNonNegative(xs: seq<real>)
    requires |xs| > 0
    requires forall i :: 0 <= i < |xs| ==> xs[i] >= 0.0
    ensures Mean(xs) >= 0.0
    ensures Mean(xs) == 0.0 <==> Sum(xs) == 0.0
    ensures Mean(xs) > 0.0 <==> Sum(xs) > 0.0
  {
    SumNonNegative(xs);
  }

  /** Two means over windows of the same length differ by the difference of
      their sums over that length. */
  lemma MeanDifference(a: seq<real>, b: seq<real>)
    requires |a| == |b| > 0
    ensures Mean(b) - Mean(a) == (Sum(b) - Sum(a)) / |a| as real
  {
    var n := |a| as real;
    var x := Sum(b) / n;
    var y := Sum(a) / n;
    assert x * n == Sum(b) && y * n == Sum(a);
    assert (x - y) * n == Sum(b) - Sum(a);
    DivideBack(Sum(b) - Sum(a), n, x - y);
  }

  /** q is the quotient D / n whenever q·n = D and n ≠ 0. */
  lemma DivideBack(d: real, n: real, q: real)
    requires n != 0.0 && q * n == d
    ensures d / n == q
  {
    var r := d / n;
    assert r * n == d;
    assert (r - q) * n == 0.0;
  }

  /** If every element is at most `hi` and one is strictly below, the mean is
      strictly below `hi`. */
  lemma MeanStrictlyBelow(xs: seq<real>, hi: real, k: nat)
    requires forall i :: 0 <= i < |xs| ==> xs[i] <= hi
    requires k < |xs| && xs[k] < hi
    ensures Mean(xs) < hi
  {
    var n := |xs| as real;
    SumStrictUpper(xs, hi, k);
    var m := Mean(xs);
    assert m * n == Sum(xs);
    assert (hi - m) * n > 0.0;
  }
}
