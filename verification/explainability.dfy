/** Walk-forward labelling for the feature-importance explanation: the rows
    with every feature available are kept, and each kept row is labelled by
    the classifier applied to the kept rows up to and including it. Fitting
    the tree ensemble on those labels is outside the model. */
module Explainability {
  import opened Wrappers
  import opened Indicators
  import opened Classifier

  /** The feature columns the explanation is trained on. */
  const FeatureColumns: seq<string> := [
    "SMA_20", "SMA_50", "RSI", "BB_Width", "BB_Position",
    "Volatility", "MACD", "MACD_Histogram", "Returns"]

  /** Fewer complete rows than this and no explanation is attempted. */
  const MinTrainingRows: nat := 50

  /** Every feature (and the close) is available on the row. MACD and its
      histogram are defined from the first bar on. */
  predicate Complete(r: IndicatorRow) {
    && r.sma20.Some? && r.sma50.Some? && r.rsi.Some?
    && r.bbWidth.Some? && r.bbPosition.Some? && r.volatility.Some?
    && r.dailyReturn.Some?
  }

  /** The cleaned table keeps only the feature columns and the close; a
      column it does not keep reads as unavailable. In particular Trend_20 is
      gone, and the classifier's trend rule compares its default 0 with 0. */
  function Project(r: IndicatorRow): (p: IndicatorRow)
    ensures p.bar == r.bar
    ensures && p.sma20 == r.sma20 && p.sma50 == r.sma50 && p.rsi == r.rsi
            && p.bbWidth == r.bbWidth && p.bbPosition == r.bbPosition
            && p.volatility == r.volatility && p.macd == r.macd
            && p.macdHistogram == r.macdHistogram && p.dailyReturn == r.dailyReturn
    ensures && p.trend20.None? && p.trend50.None? && p.sma200.None?
            && p.bbUpper.None? && p.bbMiddle.None? && p.bbLower.None?
            && p.support.None? && p.resistance.None?
  {
    r.(sma200 := None, bbUpper := None, bbMiddle := None, bbLower := None,
       support := None, resistance := None, trend20 := None, trend50 := None)
  }

  /** The complete rows, in order, restricted to the feature columns. */
  function CleanRows(rows: seq<IndicatorRow>): (clean: seq<IndicatorRow>)
    ensures |clean| <= |rows|
    ensures forall i :: 0 <= i < |clean| ==> Complete(clean[i]) && clean[i].trend20.None?
  {
    if |rows| == 0 then []
    else
      var rest := CleanRows(rows[..|rows| - 1]);
      var r := rows[|rows| - 1];
      if Complete(r) then rest + [Project(r)] else rest
  }

  /** A cleaned row is the projection of an input row that was complete, and
      every complete input row is kept. */
  lemma {:induction false} CleanRowsMembership(rows: seq<IndicatorRow>)
    ensures forall r :: r in CleanRows(rows) ==> exists q :: q in rows && Complete(q) && r == Project(q)
    ensures forall q :: q in rows && Complete(q) ==> Project(q) in CleanRows(rows)
  {
    if |rows| > 0 {
      var init := rows[..|rows| - 1];
      CleanRowsMembership(init);
      assert rows == init + [rows[|rows| - 1]];
    }
  }

  /** Cleaning works row by row: the cleaned rows of a concatenation are
      those of each part, in order, and a single row is kept (projected) exactly
      when it is complete. So every complete row appears once per occurrence,
      in input order. */
  lemma {:induction false} CleanRowsAppend(a: seq<IndicatorRow>, b: seq<IndicatorRow>)
    ensures CleanRows(a + b) == CleanRows(a) + CleanRows(b)
    ensures forall r :: CleanRows([r]) == if Complete(r) then [Project(r)] else []
    decreases |b|
  {
    if |b| > 0 {
      var init := b[..|b| - 1];
      CleanRowsAppend(a, init);
      assert (a + b)[..|a + b| - 1] == a + init;
      assert (a + b)[|a + b| - 1] == b[|b| - 1];
    } else {
      assert a + b == a;
    }
    forall r ensures CleanRows([r]) == if Complete(r) then [Project(r)] else [] {
      assert [r][..0] == [];
    }
  }

  /** Labels for every prefix of the cleaned rows, built one row at a time. */
  function WalkForwardLabels(clean: seq<IndicatorRow>, prims: Primitives): (labels: seq<Category>)
    ensures |labels| == |clean|
  {
    if |clean| == 0 then []
    else WalkForwardLabels(clean[..|clean| - 1], prims) + [Classify(clean, prims).category]
  }

  /** Label i is the classification of rows 0..i. */
  lemma {:induction false} LabelIsPrefixClassification(clean: seq<IndicatorRow>, prims: Primitives, i: nat)
    requires i < |clean|
    ensures WalkForwardLabels(clean, prims)[i] == Classify(clean[..i + 1], prims).category
  {
    var init := clean[..|clean| - 1];
    var last := Classify(clean, prims).category;
    assert WalkForwardLabels(clean, prims) == WalkForwardLabels(init, prims) + [last];
    if i < |clean| - 1 {
      LabelIsPrefixClassification(init, prims, i);
      assert init[..i + 1] == clean[..i + 1];
    } else {
      assert clean[..i + 1] == clean;
    }
  }

  /** Walk-forward labelling is causal: two cleaned series that agree on rows
      0..i get the same label i, whatever follows. */
  lemma LabelsIgnoreLaterRows(a: seq<IndicatorRow>, b: seq<IndicatorRow>, prims: Primitives, i: nat)
    requires i < |a| && i < |b| && a[..i + 1] == b[..i + 1]
    ensures WalkForwardLabels(a, prims)[i] == WalkForwardLabels(b, prims)[i]
  {
    LabelIsPrefixClassification(a, prims, i);
    LabelIsPrefixClassification(b, prims, i);
  }

  /** The labelling loop as the source runs it: classify each prefix and
      append its category. */
  method LabelLoop(clean: seq<IndicatorRow>, prims: Primitives) returns (labels: seq<Category>)
    ensures |labels| == |clean|
    ensures forall i :: 0 <= i < |clean| ==> labels[i] == Classify(clean[..i + 1], prims).category
  {
    labels := [];
    var idx := 0;
    while idx < |clean|
      invariant 0 <= idx <= |clean|
      invariant |labels| == idx
      invariant forall i :: 0 <= i < idx ==> labels[i] == Classify(clean[..i + 1], prims).category
    {
      var prefix := clean[..idx + 1];
      labels := labels + [Classify(prefix, prims).category];
      idx := idx + 1;
    }
  }

  /** What the explanation step hands to the tree ensemble: nothing when fewer
      than 50 rows are complete, otherwise the cleaned rows with their
      walk-forward labels. */
  datatype TrainingSet = TrainingSet(features: seq<string>, rows: seq<IndicatorRow>, labels: seq<Category>)

  function TrainingData(rows: seq<IndicatorRow>, prims: Primitives): (t: Option<TrainingSet>)
    ensures t.None? <==> |CleanRows(rows)| < MinTrainingRows
    ensures t.Some? ==>
      && t.value.features == FeatureColumns
      && t.value.rows == CleanRows(rows)
      && |t.value.labels| == |t.value.rows| >= MinTrainingRows
  {
    var clean := CleanRows(rows);
    if |clean| < MinTrainingRows then None
    else Some(TrainingSet(FeatureColumns, clean, WalkForwardLabels(clean, prims)))
  }

  /** Without a trend column the trend rule never fires, so a ready series
      whose latest row has no trend scores at most 3 for Uptrend and for
      Downtrend. */
  lemma NoTrendPoints(rows: seq<IndicatorRow>, prims: Primitives)
    requires Ready(rows) && rows[|rows| - 1].trend20.None?
    ensures ReadyScores(rows, prims).up <= 3 && ReadyScores(rows, prims).down <= 3
  {
    var s := SnapshotOf(rows[|rows| - 1]);
    assert !Rising(s) && !Falling(s);
  }

  /** Every training label is the classifier's answer on the cleaned rows up
      to that row, and that answer is scored without the trend rule. */
  lemma TrainingLabelsAreWalkForward(rows: seq<IndicatorRow>, prims: Primitives, i: nat)
    requires TrainingData(rows, prims).Some?
    requires i < |CleanRows(rows)|
    ensures var prefix := CleanRows(rows)[..i + 1];
      && Ready(prefix)
      && TrainingData(rows, prims).value.labels[i] == Classify(prefix, prims).category
      && ReadyScores(prefix, prims).up <= 3 && ReadyScores(prefix, prims).down <= 3
  {
    var clean := CleanRows(rows);
    assert TrainingData(rows, prims).value.labels == WalkForwardLabels(clean, prims);
    LabelIsPrefixClassification(clean, prims, i);
    var prefix := clean[..i + 1];
    assert prefix[i] == clean[i];
    assert Complete(clean[i]) && clean[i].trend20.None?;
    NoTrendPoints(prefix, prims);
  }
}
