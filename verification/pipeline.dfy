/** End-to-end behaviour of the analysis: indicators computed from a bar
    series and then classified, on the characteristic series shapes. */
module Pipeline {
  import opened Wrappers
  import opened Series
  import opened Indicators
  import opened Classifier

  /** Classification of the latest bar of an OHLC series. */
  function ClassifyBars(bars: seq<Bar>, prims: Primitives): Classification {
    Classify(AllIndicators(bars, prims), prims)
  }

  /** Fewer than 50 bars leave SMA_50 unavailable at the latest bar, so the
      guard answers Neutral with confidence 0. */
  lemma ShortSeriesIsNeutral(bars: seq<Bar>, prims: Primitives)
    requires |bars| < MediumPeriod
    ensures ClassifyBars(bars, prims).category == Neutral
    ensures ClassifyBars(bars, prims).confidence == 0.0
    ensures ClassifyBars(bars, prims).scores.None?
  {
    var rows := AllIndicators(bars, prims);
    if |bars| > 0 {
      AllIndicatorsAt(bars, prims, |bars| - 1);
    }
    assert !Ready(rows);
    GuardIsOnlyZeroConfidence(rows, prims);
  }

  /** A constant close series has no gains and no losses, so its RSI is
      unavailable (0/0) and the guard answers Neutral with confidence 0; no
      not-a-number reaches the scoring. */
  lemma FlatSeriesIsNeutral(bars: seq<Bar>, prims: Primitives)
    requires forall i :: 0 <= i < |bars| ==> bars[i].close == bars[0].close
    ensures ClassifyBars(bars, prims).category == Neutral
    ensures ClassifyBars(bars, prims).confidence == 0.0
  {
    var rows := AllIndicators(bars, prims);
    if |bars| > 0 {
      FlatLastRsiUnavailable(bars, prims);
    }
    assert !Ready(rows);
    GuardIsOnlyZeroConfidence(rows, prims);
  }

  /** The latest row of a constant close series has no RSI. */
  lemma FlatLastRsiUnavailable(bars: seq<Bar>, prims: Primitives)
    requires |bars| > 0
    requires forall i :: 0 <= i < |bars| ==> bars[i].close == bars[0].close
    ensures AllIndicators(bars, prims)[|bars| - 1].rsi.None?
  {
    var last := |bars| - 1;
    AllIndicatorsAt(bars, prims, last);
    if last + 1 >= RsiPeriod {
      FlatRsiUnavailable(Closes(bars), RsiPeriod, last);
    }
  }

  /** At the last position of a strictly rising, positive close series of
      at least 50 values: both averages are available and below the close,
      the RSI is 100, the band width and the volatility are available, and
      the SMA_20 trend is positive. */
  lemma RisingCloses(c: seq<real>, prims: Primitives)
    requires |c| >= MediumPeriod
    requires forall i :: 0 <= i < |c| ==> c[i] > 0.0
    requires forall i :: 0 <= i < |c| - 1 ==> c[i] < c[i + 1]
    ensures var last := |c| - 1;
      && SmaAt(c, ShortPeriod, last).Some? && c[last] > SmaAt(c, ShortPeriod, last).value
      && SmaAt(c, MediumPeriod, last).Some? && c[last] > SmaAt(c, MediumPeriod, last).value
      && RsiAt(c, RsiPeriod, last) == Some(100.0)
      && BandsAt(c, prims, BandPeriod, BandWidthStd, last).width.Some?
      && VolatilityAt(c, prims, VolatilityPeriod, last).Some?
      && TrendAt(c, ShortPeriod, last).Some? && TrendAt(c, ShortPeriod, last).value > 0.0
  {
    var last := |c| - 1;
    RisingCloseAboveSma(c, ShortPeriod, last);
    RisingCloseAboveSma(c, MediumPeriod, last);
    RisingRsiSaturates(c, RsiPeriod, last);
    BandsShape(c, prims, BandPeriod, BandWidthStd, last);
    VolatilityShape(c, prims, VolatilityPeriod, last);
    TrendIsWindowChange(c, ShortPeriod, last);
    RisingBelowLast(c, last - ShortPeriod, last);
    assert c[last] - c[last - ShortPeriod] > 0.0;
  }

  /** The latest row of a strictly rising, positive series of at least 50
      bars has every required indicator, a close above both averages, an RSI
      of 100 and a rising SMA_20. */
  lemma RisingLatestRow(bars: seq<Bar>, prims: Primitives)
    requires |bars| >= MediumPeriod
    requires forall i :: 0 <= i < |bars| ==> bars[i].close > 0.0
    requires forall i :: 0 <= i < |bars| - 1 ==> bars[i].close < bars[i + 1].close
    ensures var row := AllIndicators(bars, prims)[|bars| - 1];
      && HasRequired(row)
      && row.bar.close > row.sma20.value && row.bar.close > row.sma50.value
      && row.rsi == Some(100.0)
      && row.trend20.Some? && row.trend20.value > 0.0
  {
    var c := Closes(bars);
    AllIndicatorsAt(bars, prims, |bars| - 1);
    RisingCloses(c, prims);
  }

  /** A latest row above both averages, with a rising SMA_20 and an RSI of
      100, scores 3 for Uptrend and 0 for Downtrend; it is classified Uptrend
      unless all four volatility points fire. */
  lemma SaturatedUptrendRow(rows: seq<IndicatorRow>, prims: Primitives)
    requires Ready(rows)
    requires var row := rows[|rows| - 1];
      && row.bar.close > row.sma20.value && row.bar.close > row.sma50.value
      && row.rsi == Some(100.0)
      && row.trend20.Some? && row.trend20.value > 0.0
    ensures var r := Classify(rows, prims);
      && r.scores.Some? && r.scores.value.up == 3 && r.scores.value.down == 0
      && (r.category == Uptrend || (r.category == HighVolatility && r.scores.value.volatile == 4))
      && r.confidence >= 0.75
  {
    var s := SnapshotOf(rows[|rows| - 1]);
    assert AboveShort(s) && AboveMedium(s) && !RsiUpperZone(s) && Rising(s);
    assert !BelowShort(s) && !BelowMedium(s) && !RsiLowerZone(s) && !Falling(s);
    var sc := ReadyScores(rows, prims);
    assert sc.up == 3 && sc.down == 0;
    ReadyClassification(rows, prims);
    var r := Classify(rows, prims);
    if r.category == HighVolatility {
      assert sc.Get(Uptrend) < sc.Max();
    }
  }

  /** A strictly rising, positive close series of at least 50 bars scores 3
      for Uptrend (price above both averages, SMA_20 rising; the RSI has
      saturated at 100, outside the 50–70 zone) and 0 for Downtrend, so it is
      classified Uptrend with confidence at least 0.75, unless all four
      volatility points fire, in which case HighVolatility wins. */
  lemma RisingSeriesFavoursUptrend(bars: seq<Bar>, prims: Primitives)
    requires |bars| >= MediumPeriod
    requires forall i :: 0 <= i < |bars| ==> bars[i].close > 0.0
    requires forall i :: 0 <= i < |bars| - 1 ==> bars[i].close < bars[i + 1].close
    ensures var r := ClassifyBars(bars, prims);
      && r.scores.Some? && r.scores.value.up == 3 && r.scores.value.down == 0
      && (r.category == Uptrend || (r.category == HighVolatility && r.scores.value.volatile == 4))
      && r.confidence >= 0.75
  {
    RisingLatestRow(bars, prims);
    SaturatedUptrendRow(AllIndicators(bars, prims), prims);
  }
}
