/** The indicator engine: rolling statistics derived from a daily OHLC series,
    one value per bar, "not available" (None) during each indicator's warm-up.
    Arithmetic is exact; the sample standard deviation, the square root of 252
    and the interpolated 75th percentile are abstract `Primitives`. */
module Indicators {
  import opened Wrappers
  import opened Series

  type NonNeg = r: real | r >= 0.0
  type Positive = r: real | r > 0.0 witness 1.0

  /** One daily bar of the validated OHLC series. */
  datatype Bar = Bar(date: int, open: real, high: real, low: real, close: real, volume: Option<real>)

  /** The floating-point statistics the engine delegates to its numeric
      library: sample standard deviation of a window (never negative), the
      annualisation factor √252, and the linearly interpolated 75th percentile
      of a column's available values. */
  datatype Primitives = Primitives(
    std: seq<real> -> NonNeg,
    sqrtTradingDays: Positive,
    upperQuartile: seq<real> -> real)

  const ShortPeriod: nat := 20
  const MediumPeriod: nat := 50
  const LongPeriod: nat := 200
  const RsiPeriod: nat := 14
  const BandPeriod: nat := 20
  const BandWidthStd: real := 2.0
  const VolatilityPeriod: nat := 20
  const MacdFast: nat := 12
  const MacdSlow: nat := 26
  const MacdSignalSpan: nat := 9
  const SupportWindow: nat := 20

  function Closes(bars: seq<Bar>): (c: seq<real>)
    ensures |c| == |bars|
  {
    seq(|bars|, i requires 0 <= i < |bars| => bars[i].close)
  }

  function Lows(bars: seq<Bar>): (l: seq<real>)
    ensures |l| == |bars|
  {
    seq(|bars|, i requires 0 <= i < |bars| => bars[i].low)
  }

  function Highs(bars: seq<Bar>): (h: seq<real>)
    ensures |h| == |bars|
  {
    seq(|bars|, i requires 0 <= i < |bars| => bars[i].high)
  }

  /** The n values ending at position i. */
  function Trailing(xs: seq<real>, n: nat, i: nat): (w: seq<real>)
    requires 1 <= n <= i + 1 && i < |xs|
    ensures |w| == n && w[n - 1] == xs[i]
  {
    xs[i + 1 - n..i + 1]
  }

  // ---------------------------------------------------------------- SMA

  /** Simple moving average of the n closes ending at i, available from the
      n-th bar on. */
  function SmaAt(c: seq<real>, n: nat, i: nat): Option<real>
    requires n >= 1 && i < |c|
  {
    if i + 1 < n then None else Some(Mean(Trailing(c, n, i)))
  }

  /** The SMA is available exactly from position n−1, and then it lies between
      the least and the greatest close of its window. */
  lemma SmaWithinWindow(c: seq<real>, n: nat, i: nat)
    requires n >= 1 && i < |c|
    ensures SmaAt(c, n, i).Some? <==> i >= n - 1
    ensures SmaAt(c, n, i).Some? ==>
      MinOf(Trailing(c, n, i)) <= SmaAt(c, n, i).value <= MaxOf(Trailing(c, n, i))
  {
    if i + 1 >= n {
      var w := Trailing(c, n, i);
      MeanBounds(w, MinOf(w), MaxOf(w));
    }
  }

  /** Over a strictly rising stretch the latest close is above its SMA
      (n ≥ 2, so the window holds an older, lower close). */
  lemma {:induction false} RisingCloseAboveSma(c: seq<real>, n: nat, i: nat)
    requires 2 <= n <= i + 1 && i < |c|
    requires forall j :: i + 1 - n <= j < i ==> c[j] < c[j + 1]
    ensures SmaAt(c, n, i).Some? && c[i] > SmaAt(c, n, i).value
  {
    var w := Trailing(c, n, i);
    RisingBelowLast(c, i + 1 - n, i);
    assert forall k :: 0 <= k < n ==> w[k] == c[i + 1 - n + k];
    MeanStrictlyBelow(w, c[i], 0);
  }

  /** On a strictly rising stretch every earlier value is below the last one. */
  lemma {:induction false} RisingBelowLast(c: seq<real>, lo: nat, hi: nat)
    requires lo <= hi < |c|
    requires forall j :: lo <= j < hi ==> c[j] < c[j + 1]
    ensures forall j :: lo <= j < hi ==> c[j] < c[hi]
    ensures forall j :: lo <= j <= hi ==> c[j] <= c[hi]
  {
    if lo < hi {
      RisingBelowLast(c, lo, hi - 1);
    }
  }

  /** The SMA of a constant stretch is that constant. */
  lemma SmaOfConstant(c: seq<real>, n: nat, i: nat, v: real)
    requires 1 <= n <= i + 1 && i < |c|
    requires forall j :: i + 1 - n <= j <= i ==> c[j] == v
    ensures SmaAt(c, n, i) == Some(v)
  {
    MeanConstant(Trailing(c, n, i), v);
  }

  // ---------------------------------------------------------------- RSI

  /** Positive part of the bar-over-bar change; the first bar has no change,
      which the source fills with 0. */
  function Gain(c: seq<real>, i: nat): (g: real)
    requires i < |c|
    ensures g >= 0.0
  {
    if i >= 1 && c[i] - c[i - 1] > 0.0 then c[i] - c[i - 1] else 0.0
  }

  /** Magnitude of the negative part of the bar-over-bar change. */
  function Loss(c: seq<real>, i: nat): (l: real)
    requires i < |c|
    ensures l >= 0.0
  {
    if i >= 1 && c[i] - c[i - 1] < 0.0 then c[i - 1] - c[i] else 0.0
  }

  function Gains(c: seq<real>): (g: seq<real>)
    ensures |g| == |c|
    ensures forall i :: 0 <= i < |c| ==> g[i] == Gain(c, i) && g[i] >= 0.0
  {
    seq(|c|, i requires 0 <= i < |c| => Gain(c, i))
  }

  function Losses(c: seq<real>): (l: seq<real>)
    ensures |l| == |c|
    ensures forall i :: 0 <= i < |c| ==> l[i] == Loss(c, i) && l[i] >= 0.0
  {
    seq(|c|, i requires 0 <= i < |c| => Loss(c, i))
  }

  /** Relative Strength Index over the n changes ending at i. An average loss
      of zero makes the ratio infinite (RSI 100) unless the average gain is
      zero too, where 0/0 leaves the RSI not available. */
  function RsiAt(c: seq<real>, n: nat, i: nat): Option<real>
    requires n >= 1 && i < |c|
  {
    if i + 1 < n then None
    else
      var g := Mean(Trailing(Gains(c), n, i));
      var l := Mean(Trailing(Losses(c), n, i));
      MeanNonNegative(Trailing(Gains(c), n, i));
      MeanNonNegative(Trailing(Losses(c), n, i));
      if l == 0.0 then (if g > 0.0 then Some(100.0) else None)
      else Some(100.0 - 100.0 / (1.0 + g / l))
  }

  /** Total gain and total loss over the RSI window. */
  function GainSum(c: seq<real>, n: nat, i: nat): real
    requires 1 <= n <= i + 1 && i < |c|
  {
    Sum(Trailing(Gains(c), n, i))
  }

  function LossSum(c: seq<real>, n: nat, i: nat): real
    requires 1 <= n <= i + 1 && i < |c|
  {
    Sum(Trailing(Losses(c), n, i))
  }

  /** When available, the RSI is the share of total movement that was upward,
      scaled to 0..100; so it always lies in [0, 100], it is 100 exactly when
      the window had gains and no losses, and it is unavailable exactly during
      warm-up or when the window had neither. */
  lemma RsiShape(c: seq<real>, n: nat, i: nat)
    requires n >= 1 && i < |c|
    ensures RsiAt(c, n, i).None? <==>
      (i + 1 < n || (GainSum(c, n, i) == 0.0 && LossSum(c, n, i) == 0.0))
    ensures RsiAt(c, n, i).Some? ==>
      var G := GainSum(c, n, i);
      var L := LossSum(c, n, i);
      G + L > 0.0 && RsiAt(c, n, i).value == 100.0 * G / (G + L)
    ensures RsiAt(c, n, i).Some? ==> 0.0 <= RsiAt(c, n, i).value <= 100.0
    ensures RsiAt(c, n, i) == Some(100.0) <==>
      (i + 1 >= n && LossSum(c, n, i) == 0.0 && GainSum(c, n, i) > 0.0)
  {
    if i + 1 >= n {
      var gs, ls := Trailing(Gains(c), n, i), Trailing(Losses(c), n, i);
      var G, L := GainSum(c, n, i), LossSum(c, n, i);
      MeanNonNegative(gs);
      MeanNonNegative(ls);
      if L == 0.0 {
        assert Mean(ls) == 0.0;
        assert RsiAt(c, n, i) == if G > 0.0 then Some(100.0) else None;
      } else {
        RsiRatio(G, L, n as real);
        assert RsiAt(c, n, i) == Some(100.0 * G / (G + L));
      }
    }
  }

  /** The RSI formula on averages G/n and L/n (L > 0) equals 100·G/(G+L),
      which lies in [0, 100). */
  lemma RsiRatio(G: real, L: real, n: real)
    requires G >= 0.0 && L > 0.0 && n > 0.0
    ensures 1.0 + (G / n) / (L / n) > 0.0
    ensures 100.0 - 100.0 / (1.0 + (G / n) / (L / n)) == 100.0 * G / (G + L)
    ensures 0.0 <= 100.0 * G / (G + L) < 100.0
  {
    AverageRatio(G, L, n);
    RsiForm(G, L);
    ShareBound(G, L);
  }

  /** Dividing both sums by the window length leaves their ratio alone. */
  lemma AverageRatio(G: real, L: real, n: real)
    requires L > 0.0 && n > 0.0
    ensures (G / n) / (L / n) == G / L
  {
    var g := G / n;
    var l := L / n;
    var q := G / L;
    assert g * n == G;
    assert l * n == L;
    assert q * L == G;
    assert (q * l) * n == q * L;
    assert (q * l - g) * n == 0.0;
    assert q * l == g;
    DivideBack(g, l, q);
  }

  /** 100 − 100 / (1 + G/L) is the upward share 100·G/(G+L). */
  lemma RsiForm(G: real, L: real)
    requires G >= 0.0 && L > 0.0
    ensures 1.0 + G / L > 0.0
    ensures 100.0 - 100.0 / (1.0 + G / L) == 100.0 * G / (G + L)
  {
    var q := G / L;
    assert q * L == G;
    assert q >= 0.0;
    var d := 1.0 + q;
    assert d * L == L + G;
    var e := 100.0 * L / (L + G);
    assert e * (L + G) == 100.0 * L;
    assert (e * d) * L == e * (L + G);
    assert (e * d - 100.0) * L == 0.0;
    assert e * d == 100.0;
    DivideBack(100.0, d, e);
    var f := 100.0 * G / (G + L);
    assert f * (G + L) == 100.0 * G;
    assert (e + f - 100.0) * (G + L) == 0.0;
    assert e + f == 100.0;
  }

  /** The upward share lies in [0, 100) when there was some loss. */
  lemma ShareBound(G: real, L: real)
    requires G >= 0.0 && L > 0.0
    ensures 0.0 <= 100.0 * G / (G + L) < 100.0
  {
    var f := 100.0 * G / (G + L);
    assert f * (G + L) == 100.0 * G;
    assert (100.0 - f) * (G + L) == 100.0 * L;
  }

  /** Over a strictly rising stretch of n bars the RSI saturates at 100. */
  lemma RisingRsiSaturates(c: seq<real>, n: nat, i: nat)
    requires 2 <= n <= i + 1 && i < |c|
    requires forall j :: 0 <= j < i && i - n <= j ==> c[j] < c[j + 1]
    ensures RsiAt(c, n, i) == Some(100.0)
  {
    var gw := Trailing(Gains(c), n, i);
    var lw := Trailing(Losses(c), n, i);
    assert forall k :: 0 <= k < n ==> lw[k] == 0.0;
    SumConstant(lw, 0.0);
    assert gw[n - 1] > 0.0;
    SumNonNegative(gw);
    RsiShape(c, n, i);
  }

  /** Over a constant stretch the RSI is not available: 0/0. */
  lemma FlatRsiUnavailable(c: seq<real>, n: nat, i: nat)
    requires 1 <= n <= i + 1 && i < |c|
    requires forall j :: 0 <= j < i && i - n <= j ==> c[j] == c[j + 1]
    ensures RsiAt(c, n, i).None?
  {
    var gw := Trailing(Gains(c), n, i);
    var lw := Trailing(Losses(c), n, i);
    assert forall k :: 0 <= k < n ==> gw[k] == 0.0 && lw[k] == 0.0;
    SumConstant(gw, 0.0);
    SumConstant(lw, 0.0);
    RsiShape(c, n, i);
  }

  // ---------------------------------------------------------- Bollinger

  /** Bollinger bands at one position: middle = SMA, half-width = k·std. */
  datatype Bands = Bands(
    upper: Option<real>, middle: Option<real>, lower: Option<real>,
    width: Option<real>, position: Option<real>)

  function BandsAt(c: seq<real>, prims: Primitives, n: nat, k: real, i: nat): Bands
    requires n >= 2 && i < |c|
  {
    if i + 1 < n then Bands(None, None, None, None, None)
    else
      var w := Trailing(c, n, i);
      var m := Mean(w);
      var s := prims.std(w);
      var up := m + s * k;
      var lo := m - s * k;
      Bands(Some(up), Some(m), Some(lo), Some(up - lo),
            if up - lo == 0.0 then None else Some((c[i] - lo) / (up - lo)))
  }

  /** Band geometry: available from position n−1 on; then the middle band is
      the SMA, upper − lower = 2·k·std, the bands are ordered, the width is
      non-negative, the position is unavailable exactly when the width is 0,
      and otherwise it lies in [0, 1] exactly when the close is inside the
      bands. */
  lemma BandsShape(c: seq<real>, prims: Primitives, n: nat, k: real, i: nat)
    requires n >= 2 && i < |c| && k >= 0.0
    ensures var b := BandsAt(c, prims, n, k, i);
      && (b.middle.Some? <==> i + 1 >= n)
      && b.middle == SmaAt(c, n, i)
      && b.upper.Some? == b.middle.Some? == b.lower.Some? == b.width.Some?
      && (b.middle.Some? ==>
            && b.upper.value - b.lower.value == 2.0 * k * prims.std(Trailing(c, n, i))
            && b.lower.value <= b.middle.value <= b.upper.value
            && b.width.value == b.upper.value - b.lower.value >= 0.0
            && (b.position.None? <==> b.width.value == 0.0)
            && (b.position.Some? ==>
                  (0.0 <= b.position.value <= 1.0 <==>
                   b.lower.value <= c[i] <= b.upper.value)))
    ensures BandsAt(c, prims, n, k, i).middle.None? ==> BandsAt(c, prims, n, k, i).position.None?
  {
    if i + 1 >= n {
      var w := Trailing(c, n, i);
      var s := prims.std(w);
      assert s * k >= 0.0;
      var b := BandsAt(c, prims, n, k, i);
      if b.position.Some? {
        UnitFraction(c[i] - b.lower.value, b.upper.value - b.lower.value);
      }
    }
  }

  /** For w > 0, a / w lies in [0, 1] exactly when 0 ≤ a ≤ w. */
  lemma UnitFraction(a: real, w: real)
    requires w > 0.0
    ensures 0.0 <= a / w <= 1.0 <==> 0.0 <= a <= w
  {
    var q := a / w;
    assert q * w == a;
    if 0.0 <= a <= w {
      ScaledBounds(a, w, 0.0, 1.0);
    }
    if 0.0 <= q <= 1.0 {
      assert q * w <= 1.0 * w;
    }
  }

  // --------------------------------------------------------- Volatility

  /** Simple return of bar i over bar i−1; none for the first bar, and none
      where the previous close is zero. */
  function ReturnAt(c: seq<real>, i: nat): Option<real>
    requires i < |c|
  {
    if i == 0 || c[i - 1] == 0.0 then None else Some(c[i] / c[i - 1] - 1.0)
  }

  /** Annualised volatility in percent: std of the n returns ending at i,
      times √252, times 100. Needs n returns, so it starts at position n. */
  function VolatilityAt(c: seq<real>, prims: Primitives, n: nat, i: nat): Option<real>
    requires n >= 2 && i < |c|
  {
    if i < n || exists j :: i - n <= j < i && c[j] == 0.0 then None
    else Some(prims.std(WindowReturns(c, n, i)) * prims.sqrtTradingDays * 100.0)
  }

  /** The n returns ending at position i. */
  function WindowReturns(c: seq<real>, n: nat, i: nat): (rs: seq<real>)
    requires n <= i < |c| && forall j :: i - n <= j < i ==> c[j] != 0.0
    ensures |rs| == n
    ensures forall k :: 0 <= k < n ==> rs[k] == ReturnAt(c, i + 1 - n + k).value
  {
    seq(n, k requires 0 <= k < n => c[i + 1 - n + k] / c[i - n + k] - 1.0)
  }

  /** Volatility is available exactly when the window has n returns, and then
      it is non-negative. */
  lemma VolatilityShape(c: seq<real>, prims: Primitives, n: nat, i: nat)
    requires n >= 2 && i < |c|
    ensures VolatilityAt(c, prims, n, i).Some? <==>
      (i >= n && forall j :: i + 1 - n <= j <= i ==> ReturnAt(c, j).Some?)
    ensures VolatilityAt(c, prims, n, i).Some? ==> VolatilityAt(c, prims, n, i).value >= 0.0
  {
    if i >= n && forall j :: i + 1 - n <= j <= i ==> ReturnAt(c, j).Some? {
      forall j | i - n <= j < i ensures c[j] != 0.0 {
        assert ReturnAt(c, j + 1).Some?;
      }
    }
  }

  // --------------------------------------------------------------- MACD

  /** Smoothing factor of an exponential moving average of the given span. */
  function Alpha(span: nat): (a: real)
    requires span >= 1
    ensures 0.0 < a <= 1.0
  {
    2.0 / (span as real + 1.0)
  }

  /** Exponential moving average without bias adjustment: seeded with the
      first value, then each value blends the new input with the previous
      average. */
  function Ema(xs: seq<real>, alpha: real): (e: seq<real>)
    ensures |e| == |xs|
    decreases |xs|
  {
    if |xs| == 0 then []
    else if |xs| == 1 then [xs[0]]
    else
      var prev := Ema(xs[..|xs| - 1], alpha);
      prev + [Blend(alpha, xs[|xs| - 1], prev[|xs| - 2])]
  }

  /** One EMA step: weight α on the new value, 1 − α on the previous average. */
  function Blend(alpha: real, x: real, prev: real): real
  {
    alpha * x + (1.0 - alpha) * prev
  }

  /** The EMA is causal: its first k values depend only on the first k inputs. */
  lemma {:induction false} EmaPrefix(xs: seq<real>, alpha: real, k: nat)
    requires k <= |xs|
    ensures Ema(xs[..k], alpha) == Ema(xs, alpha)[..k]
    decreases |xs|
  {
    if k < |xs| {
      var init := xs[..|xs| - 1];
      assert xs[..k] == init[..k];
      EmaPrefix(init, alpha, k);
    } else {
      assert xs[..k] == xs;
    }
  }

  /** The recurrence the EMA satisfies at every position. */
  lemma EmaRecurrence(xs: seq<real>, alpha: real, t: nat)
    requires t < |xs|
    ensures t == 0 ==> Ema(xs, alpha)[0] == xs[0]
    ensures t > 0 ==> Ema(xs, alpha)[t] == alpha * xs[t] + (1.0 - alpha) * Ema(xs, alpha)[t - 1]
  {
    EmaPrefix(xs, alpha, t + 1);
    var p := xs[..t + 1];
    if t > 0 {
      assert p[..|p| - 1] == xs[..t];
      EmaPrefix(xs, alpha, t);
    }
  }

  /** With 0 < α ≤ 1 each average is a convex blend, so an EMA never leaves
      the range of its inputs. */
  lemma {:induction false} EmaWithinRange(xs: seq<real>, alpha: real, lo: real, hi: real)
    requires 0.0 < alpha <= 1.0
    requires forall i :: 0 <= i < |xs| ==> lo <= xs[i] <= hi
    ensures forall i :: 0 <= i < |xs| ==> lo <= Ema(xs, alpha)[i] <= hi
    decreases |xs|
  {
    if |xs| > 1 {
      var init := xs[..|xs| - 1];
      EmaWithinRange(init, alpha, lo, hi);
      var p := Ema(init, alpha);
      var x := xs[|xs| - 1];
      var e := Blend(alpha, x, p[|p| - 1]);
      assert lo <= p[|p| - 1] <= hi;
      BlendWithin(alpha, x, p[|p| - 1], lo, hi);
      assert Ema(xs, alpha) == p + [e];
      assert forall i :: 0 <= i < |p| ==> Ema(xs, alpha)[i] == p[i];
    }
  }

  /** A convex blend of two values in [lo, hi] stays in [lo, hi]. */
  lemma BlendWithin(alpha: real, x: real, prev: real, lo: real, hi: real)
    requires 0.0 < alpha <= 1.0 && lo <= x <= hi && lo <= prev <= hi
    ensures lo <= Blend(alpha, x, prev) <= hi
  {
    var beta := 1.0 - alpha;
    NonNegativeProduct(alpha, x - lo);
    NonNegativeProduct(beta, prev - lo);
    NonNegativeProduct(alpha, hi - x);
    NonNegativeProduct(beta, hi - prev);
    assert alpha * (x - lo) == alpha * x - alpha * lo;
    assert beta * (prev - lo) == beta * prev - beta * lo;
    assert alpha * (hi - x) == alpha * hi - alpha * x;
    assert beta * (hi - prev) == beta * hi - beta * prev;
    assert alpha * lo + beta * lo == lo;
    assert alpha * hi + beta * hi == hi;
  }

  lemma NonNegativeProduct(a: real, b: real)
    requires a >= 0.0 && b >= 0.0
    ensures a * b >= 0.0
  {
  }

  /** The EMA computed as the source's numeric library streams it: one pass,
      carrying the previous average. */
  method EmaStream(xs: seq<real>, span: nat) returns (e: seq<real>)
    requires span >= 1
    ensures |e| == |xs|
    ensures e == Ema(xs, Alpha(span))
  {
    var alpha := Alpha(span);
    e := [];
    var t := 0;
    while t < |xs|
      invariant 0 <= t <= |xs|
      invariant e == Ema(xs[..t], alpha)
    {
      ghost var p := xs[..t + 1];
      assert p[..|p| - 1] == xs[..t] && p[|p| - 1] == xs[t];
      if t == 0 {
        e := [xs[0]];
      } else {
        e := e + [Blend(alpha, xs[t], e[t - 1])];
      }
      t := t + 1;
    }
    assert xs[..t] == xs;
  }

  /** MACD line (fast EMA − slow EMA), its signal EMA, and their difference. */
  datatype MacdColumns = MacdColumns(line: seq<real>, signal: seq<real>, histogram: seq<real>)

  function Macd(c: seq<real>, fast: nat, slow: nat, signal: nat): MacdColumns
    requires fast >= 1 && slow >= 1 && signal >= 1
  {
    var ef := Ema(c, Alpha(fast));
    var es := Ema(c, Alpha(slow));
    var line := seq(|c|, t requires 0 <= t < |c| => ef[t] - es[t]);
    var sig := Ema(line, Alpha(signal));
    MacdColumns(line, sig, seq(|c|, t requires 0 <= t < |c| => line[t] - sig[t]))
  }

  /** MACD columns have one value per bar from the first bar on, the histogram
      is the line minus the signal, and a constant close series has all three
      identically zero. */
  lemma MacdShape(c: seq<real>, fast: nat, slow: nat, signal: nat)
    requires fast >= 1 && slow >= 1 && signal >= 1
    ensures var m := Macd(c, fast, slow, signal);
      && |m.line| == |m.signal| == |m.histogram| == |c|
      && (forall t :: 0 <= t < |c| ==>
            m.line[t] == Ema(c, Alpha(fast))[t] - Ema(c, Alpha(slow))[t]
            && m.histogram[t] == m.line[t] - m.signal[t])
    ensures (forall t :: 0 <= t < |c| ==> c[t] == c[0]) ==>
      var m := Macd(c, fast, slow, signal);
      forall t :: 0 <= t < |c| ==> m.line[t] == 0.0 && m.signal[t] == 0.0 && m.histogram[t] == 0.0
  {
    if |c| > 0 && forall t :: 0 <= t < |c| ==> c[t] == c[0] {
      var v := c[0];
      EmaWithinRange(c, Alpha(fast), v, v);
      EmaWithinRange(c, Alpha(slow), v, v);
      var m := Macd(c, fast, slow, signal);
      EmaWithinRange(m.line, Alpha(signal), 0.0, 0.0);
    }
  }

  // -------------------------------------------------- Support/Resistance

  /** Bounds [start, end) of the centred rolling window of size w at position
      i: the window reaches (w−1)/2 bars ahead, the rest behind; it is only
      used when it fits entirely inside the series. */
  function CentredWindow(len: nat, w: nat, i: nat): Option<(nat, nat)>
    requires w >= 1
  {
    var end := i + (w - 1) / 2 + 1;
    if end < w || end > len then None else Some((end - w, end))
  }

  function SupportAt(lows: seq<real>, w: nat, i: nat): Option<real>
    requires w >= 1
  {
    match CentredWindow(|lows|, w, i)
    case None => None
    case Some((s, e)) => Some(MinOf(lows[s..e]))
  }

  function ResistanceAt(highs: seq<real>, w: nat, i: nat): Option<real>
    requires w >= 1
  {
    match CentredWindow(|highs|, w, i)
    case None => None
    case Some((s, e)) => Some(MaxOf(highs[s..e]))
  }

  /** Support and resistance are available only where the centred window fits
      (for w = 20: from bar 10 to the tenth bar from the end), and since the
      window contains bar i, support ≤ low[i] and resistance ≥ high[i]. */
  lemma SupportResistanceShape(lows: seq<real>, highs: seq<real>, w: nat, i: nat)
    requires w >= 1 && |lows| == |highs| && i < |lows|
    ensures SupportAt(lows, w, i).Some? <==> (i + (w - 1) / 2 + 1 >= w && i + (w - 1) / 2 < |lows|)
    ensures ResistanceAt(highs, w, i).Some? == SupportAt(lows, w, i).Some?
    ensures SupportAt(lows, w, i).Some? ==> SupportAt(lows, w, i).value <= lows[i]
    ensures ResistanceAt(highs, w, i).Some? ==> ResistanceAt(highs, w, i).value >= highs[i]
  {
    var end := i + (w - 1) / 2 + 1;
    if end >= w && end <= |lows| {
      var s := end - w;
      assert lows[s..end][i - s] == lows[i];
      assert highs[s..end][i - s] == highs[i];
    }
  }

  // ------------------------------------------------------------ Trend

  /** First difference of the n-bar SMA: positive when the average is rising. */
  function TrendAt(c: seq<real>, n: nat, i: nat): Option<real>
    requires n >= 1 && i < |c|
  {
    if i == 0 then None
    else match (SmaAt(c, n, i - 1), SmaAt(c, n, i))
      case (Some(a), Some(b)) => Some(b - a)
      case _ => None
  }

  /** The trend is available from position n on, and equals the change across
      the window divided by n: the close entering minus the close leaving. */
  lemma TrendIsWindowChange(c: seq<real>, n: nat, i: nat)
    requires n >= 1 && i < |c|
    ensures TrendAt(c, n, i).Some? <==> i >= n
    ensures TrendAt(c, n, i).Some? ==> TrendAt(c, n, i).value == (c[i] - c[i - n]) / n as real
  {
    if i >= n {
      var a := Trailing(c, n, i - 1);
      var b := Trailing(c, n, i);
      var mid := c[i + 1 - n..i];
      assert a == [c[i - n]] + mid;
      assert b == mid + [c[i]];
      SumFront(a);
      assert a[1..] == mid;
      assert b[..|b| - 1] == mid;
      assert Sum(b) - Sum(a) == c[i] - c[i - n];
      MeanDifference(a, b);
    }
  }

  // ----------------------------------------------------- All indicators

  /** A bar together with every indicator computed for it. */
  datatype IndicatorRow = IndicatorRow(
    bar: Bar,
    sma20: Option<real>, sma50: Option<real>, sma200: Option<real>,
    rsi: Option<real>,
    bbUpper: Option<real>, bbMiddle: Option<real>, bbLower: Option<real>,
    bbWidth: Option<real>, bbPosition: Option<real>,
    volatility: Option<real>,
    macd: real, macdSignal: real, macdHistogram: real,
    support: Option<real>, resistance: Option<real>,
    dailyReturn: Option<real>,
    trend20: Option<real>, trend50: Option<real>)

  function RowAt(bars: seq<Bar>, prims: Primitives, m: MacdColumns, i: nat): IndicatorRow
    requires i < |bars| && |m.line| == |m.signal| == |m.histogram| == |bars|
  {
    var c := Closes(bars);
    var b := BandsAt(c, prims, BandPeriod, BandWidthStd, i);
    IndicatorRow(
      bars[i],
      SmaAt(c, ShortPeriod, i), SmaAt(c, MediumPeriod, i), SmaAt(c, LongPeriod, i),
      RsiAt(c, RsiPeriod, i),
      b.upper, b.middle, b.lower, b.width, b.position,
      VolatilityAt(c, prims, VolatilityPeriod, i),
      m.line[i], m.signal[i], m.histogram[i],
      SupportAt(Lows(bars), SupportWindow, i), ResistanceAt(Highs(bars), SupportWindow, i),
      ReturnAt(c, i),
      TrendAt(c, ShortPeriod, i), TrendAt(c, MediumPeriod, i))
  }

  /** Every indicator for every bar: one row per input bar, in input order,
      each carrying its bar unchanged. */
  function AllIndicators(bars: seq<Bar>, prims: Primitives): (rows: seq<IndicatorRow>)
    ensures |rows| == |bars|
    ensures forall i :: 0 <= i < |bars| ==> rows[i].bar == bars[i]
  {
    var m := Macd(Closes(bars), MacdFast, MacdSlow, MacdSignalSpan);
    MacdShape(Closes(bars), MacdFast, MacdSlow, MacdSignalSpan);
    seq(|bars|, i requires 0 <= i < |bars| => RowAt(bars, prims, m, i))
  }

  /** Unfolds one row of the indicator table into the per-position
      definitions above. */
  lemma AllIndicatorsAt(bars: seq<Bar>, prims: Primitives, i: nat)
    requires i < |bars|
    ensures var r := AllIndicators(bars, prims)[i];
      var c := Closes(bars);
      && r.sma20 == SmaAt(c, ShortPeriod, i)
      && r.sma50 == SmaAt(c, MediumPeriod, i)
      && r.rsi == RsiAt(c, RsiPeriod, i)
      && r.bbWidth == BandsAt(c, prims, BandPeriod, BandWidthStd, i).width
      && r.bbPosition == BandsAt(c, prims, BandPeriod, BandWidthStd, i).position
      && r.volatility == VolatilityAt(c, prims, VolatilityPeriod, i)
      && r.trend20 == TrendAt(c, ShortPeriod, i)
      && r.bar.close == c[i]
  {
  }

  // ----------------------------------------------------------- Causality

  /** Two close series that agree up to position i. */
  predicate AgreeUpTo(c: seq<real>, d: seq<real>, i: nat) {
    i < |c| && i < |d| && c[..i + 1] == d[..i + 1]
  }

  lemma AgreeAt(c: seq<real>, d: seq<real>, i: nat, j: nat)
    requires AgreeUpTo(c, d, i) && j <= i
    ensures c[j] == d[j]
  {
    assert c[..i + 1][j] == d[..i + 1][j];
  }

  lemma TrailingAgree(c: seq<real>, d: seq<real>, n: nat, i: nat)
    requires AgreeUpTo(c, d, i) && 1 <= n <= i + 1
    ensures Trailing(c, n, i) == Trailing(d, n, i)
  {
    assert Trailing(c, n, i) == c[..i + 1][i + 1 - n..];
    assert Trailing(d, n, i) == d[..i + 1][i + 1 - n..];
  }

  lemma SmaCausal(c: seq<real>, d: seq<real>, n: nat, i: nat)
    requires AgreeUpTo(c, d, i) && n >= 1
    ensures SmaAt(c, n, i) == SmaAt(d, n, i)
  {
    if i + 1 >= n {
      TrailingAgree(c, d, n, i);
    }
  }

  /** Gains and losses up to position i depend on the closes up to i only. */
  lemma MovesCausal(c: seq<real>, d: seq<real>, i: nat)
    requires AgreeUpTo(c, d, i)
    ensures AgreeUpTo(Gains(c), Gains(d), i) && AgreeUpTo(Losses(c), Losses(d), i)
  {
    forall j | 0 <= j <= i ensures Gains(c)[j] == Gains(d)[j] && Losses(c)[j] == Losses(d)[j] {
      AgreeAt(c, d, i, j);
      if j >= 1 { AgreeAt(c, d, i, j - 1); }
    }
    assert Gains(c)[..i + 1] == Gains(d)[..i + 1];
    assert Losses(c)[..i + 1] == Losses(d)[..i + 1];
  }

  lemma RsiCausal(c: seq<real>, d: seq<real>, n: nat, i: nat)
    requires AgreeUpTo(c, d, i) && n >= 1
    ensures RsiAt(c, n, i) == RsiAt(d, n, i)
  {
    if i + 1 >= n {
      MovesCausal(c, d, i);
      TrailingAgree(Gains(c), Gains(d), n, i);
      TrailingAgree(Losses(c), Losses(d), n, i);
    }
  }

  lemma BandsCausal(c: seq<real>, d: seq<real>, prims: Primitives, n: nat, k: real, i: nat)
    requires AgreeUpTo(c, d, i) && n >= 2
    ensures BandsAt(c, prims, n, k, i) == BandsAt(d, prims, n, k, i)
  {
    if i + 1 >= n {
      TrailingAgree(c, d, n, i);
      AgreeAt(c, d, i, i);
      BandsUnfold(c, prims, n, k, i);
      BandsUnfold(d, prims, n, k, i);
      var wc, wd := Trailing(c, n, i), Trailing(d, n, i);
      assert wc == wd;
      assert prims.std(wc) == prims.std(wd);
      var bc := BandsAt(c, prims, n, k, i);
      var bd := BandsAt(d, prims, n, k, i);
      assert bc.upper == bd.upper && bc.lower == bd.lower && bc.middle == bd.middle;
      assert bc.width == bd.width && bc.position == bd.position;
    }
  }

  lemma BandsUnfold(c: seq<real>, prims: Primitives, n: nat, k: real, i: nat)
    requires n >= 2 && i < |c| && i + 1 >= n
    ensures var w := Trailing(c, n, i);
      BandsAt(c, prims, n, k, i).upper == Some(Mean(w) + prims.std(w) * k)
    ensures var w := Trailing(c, n, i);
      BandsAt(c, prims, n, k, i).lower == Some(Mean(w) - prims.std(w) * k)
    ensures BandsAt(c, prims, n, k, i).middle == Some(Mean(Trailing(c, n, i)))
    ensures var w := Trailing(c, n, i);
      var up := Mean(w) + prims.std(w) * k;
      var lo := Mean(w) - prims.std(w) * k;
      && BandsAt(c, prims, n, k, i).width == Some(up - lo)
      && BandsAt(c, prims, n, k, i).position == if up - lo == 0.0 then None else Some((c[i] - lo) / (up - lo))
  {
  }

  lemma VolatilityCausal(c: seq<real>, d: seq<real>, prims: Primitives, n: nat, i: nat)
    requires AgreeUpTo(c, d, i) && n >= 2
    ensures VolatilityAt(c, prims, n, i) == VolatilityAt(d, prims, n, i)
  {
    if i >= n {
      forall j | i - n <= j <= i ensures c[j] == d[j] {
        AgreeAt(c, d, i, j);
      }
      if !exists j :: i - n <= j < i && c[j] == 0.0 {
        assert !exists j :: i - n <= j < i && d[j] == 0.0;
        var rc, rd := WindowReturns(c, n, i), WindowReturns(d, n, i);
        assert rc == rd;
        assert prims.std(rc) == prims.std(rd);
        VolatilityUnfold(c, prims, n, i);
        VolatilityUnfold(d, prims, n, i);
        assert VolatilityAt(c, prims, n, i).value == VolatilityAt(d, prims, n, i).value;
      }
    }
  }

  lemma VolatilityUnfold(c: seq<real>, prims: Primitives, n: nat, i: nat)
    requires 2 <= n <= i < |c| && forall j :: i - n <= j < i ==> c[j] != 0.0
    ensures VolatilityAt(c, prims, n, i).Some?
    ensures VolatilityAt(c, prims, n, i).value == prims.std(WindowReturns(c, n, i)) * prims.sqrtTradingDays * 100.0
  {
  }

  lemma TrendCausal(c: seq<real>, d: seq<real>, n: nat, i: nat)
    requires AgreeUpTo(c, d, i) && n >= 1
    ensures TrendAt(c, n, i) == TrendAt(d, n, i)
  {
    SmaCausal(c, d, n, i);
    if i > 0 {
      assert c[..i] == c[..i + 1][..i] && d[..i] == d[..i + 1][..i];
      SmaCausal(c, d, n, i - 1);
    }
  }

  /** The MACD columns of a prefix are the prefixes of the MACD columns. */
  lemma MacdPrefix(c: seq<real>, k: nat)
    requires k <= |c|
    ensures var m := Macd(c, MacdFast, MacdSlow, MacdSignalSpan);
      var p := Macd(c[..k], MacdFast, MacdSlow, MacdSignalSpan);
      p.line == m.line[..k] && p.signal == m.signal[..k] && p.histogram == m.histogram[..k]
  {
    var m := Macd(c, MacdFast, MacdSlow, MacdSignalSpan);
    var p := Macd(c[..k], MacdFast, MacdSlow, MacdSignalSpan);
    EmaPrefix(c, Alpha(MacdFast), k);
    EmaPrefix(c, Alpha(MacdSlow), k);
    assert p.line == m.line[..k];
    EmaPrefix(m.line, Alpha(MacdSignalSpan), k);
  }

  /** Two indicator rows agree on the bar and on every column computed from
      the bars up to it: all but support and resistance. */
  predicate SameTrailingColumns(r: IndicatorRow, s: IndicatorRow) {
    && r.bar == s.bar
    && r.sma20 == s.sma20 && r.sma50 == s.sma50 && r.sma200 == s.sma200
    && r.rsi == s.rsi
    && r.bbUpper == s.bbUpper && r.bbMiddle == s.bbMiddle && r.bbLower == s.bbLower
    && r.bbWidth == s.bbWidth && r.bbPosition == s.bbPosition
    && r.volatility == s.volatility
    && r.macd == s.macd && r.macdSignal == s.macdSignal && r.macdHistogram == s.macdHistogram
    && r.dailyReturn == s.dailyReturn
    && r.trend20 == s.trend20 && r.trend50 == s.trend50
  }

  lemma RowCausal(p: seq<Bar>, q: seq<Bar>, prims: Primitives, mp: MacdColumns, mq: MacdColumns, i: nat)
    requires i < |p| && i < |q| && p[i] == q[i] && AgreeUpTo(Closes(p), Closes(q), i)
    requires |mp.line| == |mp.signal| == |mp.histogram| == |p|
    requires |mq.line| == |mq.signal| == |mq.histogram| == |q|
    requires mp.line[i] == mq.line[i] && mp.signal[i] == mq.signal[i] && mp.histogram[i] == mq.histogram[i]
    ensures SameTrailingColumns(RowAt(p, prims, mp, i), RowAt(q, prims, mq, i))
  {
    var cp, cq := Closes(p), Closes(q);
    SmaCausal(cp, cq, ShortPeriod, i);
    SmaCausal(cp, cq, MediumPeriod, i);
    SmaCausal(cp, cq, LongPeriod, i);
    RsiCausal(cp, cq, RsiPeriod, i);
    BandsCausal(cp, cq, prims, BandPeriod, BandWidthStd, i);
    VolatilityCausal(cp, cq, prims, VolatilityPeriod, i);
    TrendCausal(cp, cq, ShortPeriod, i);
    TrendCausal(cp, cq, MediumPeriod, i);
    AgreeAt(cp, cq, i, i);
    if i > 0 { AgreeAt(cp, cq, i, i - 1); }
  }

  /** The indicator table is causal: computing it on the first k bars gives,
      at every position i < k, the same bar, moving averages, RSI, bands,
      volatility, MACD columns, return and trends as computing it on the whole
      series. Support and resistance are the exception: their centred window
      reaches (w−1)/2 bars ahead, so the prefix has none in its last
      (w−1)/2 rows. */
  lemma IndicatorsCausal(bars: seq<Bar>, prims: Primitives, k: nat, i: nat)
    requires i < k <= |bars|
    ensures SameTrailingColumns(AllIndicators(bars[..k], prims)[i], AllIndicators(bars, prims)[i])
    ensures i + (SupportWindow - 1) / 2 >= k ==>
      AllIndicators(bars[..k], prims)[i].support.None? && AllIndicators(bars[..k], prims)[i].resistance.None?
  {
    var p := bars[..k];
    var c := Closes(bars);
    var cp := Closes(p);
    var m := Macd(c, MacdFast, MacdSlow, MacdSignalSpan);
    var mp := Macd(cp, MacdFast, MacdSlow, MacdSignalSpan);
    TableRow(bars, prims, i);
    TableRow(p, prims, i);
    ClosesPrefix(bars, k, i);
    MacdPrefix(c, k);
    assert mp.line[i] == m.line[i] && mp.signal[i] == m.signal[i] && mp.histogram[i] == m.histogram[i];
    RowCausal(p, bars, prims, mp, m, i);
  }

  lemma TableRow(bars: seq<Bar>, prims: Primitives, i: nat)
    requires i < |bars|
    ensures var m := Macd(Closes(bars), MacdFast, MacdSlow, MacdSignalSpan);
      |m.line| == |m.signal| == |m.histogram| == |bars|
      && AllIndicators(bars, prims)[i] == RowAt(bars, prims, m, i)
  {
    MacdShape(Closes(bars), MacdFast, MacdSlow, MacdSignalSpan);
  }

  lemma ClosesPrefix(bars: seq<Bar>, k: nat, i: nat)
    requires i < k <= |bars|
    ensures Closes(bars[..k]) == Closes(bars)[..k]
    ensures AgreeUpTo(Closes(bars[..k]), Closes(bars), i)
  {
    var cp, c := Closes(bars[..k]), Closes(bars);
    assert cp == c[..k];
    assert cp[..i + 1] == c[..i + 1];
  }
}
