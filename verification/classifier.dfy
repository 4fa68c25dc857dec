/** The rule-based regime classifier: integer points for each of four
    categories read off the latest indicator row, an arg-max with a fixed
    precedence, a fixed fallback when nothing scores, and a guard that turns
    missing warm-up data into a defined "neutral, no confidence" result. */
module Classifier {
  import opened Wrappers
  import opened Series
  import opened Indicators

  /** The four regimes, declared in the order the classifier breaks ties. */
  datatype Category = Uptrend | Downtrend | HighVolatility | Neutral {

    /** The label the classifier reports. */
    function Name(): string {
      match this
      case Uptrend => "Tendência de Alta"
      case Downtrend => "Tendência de Baixa"
      case HighVolatility => "Alta Volatilidade"
      case Neutral => "Neutro"
    }

    /** Position in the declaration order (0 = first). */
    function Rank(): nat {
      match this
      case Uptrend => 0
      case Downtrend => 1
      case HighVolatility => 2
      case Neutral => 3
    }
  }

  /** Points per category. */
  datatype Scores = Scores(up: nat, down: nat, volatile: nat, neutral: nat) {

    function Get(c: Category): nat {
      match c
      case Uptrend => up
      case Downtrend => down
      case HighVolatility => volatile
      case Neutral => neutral
    }

    /** The largest of the four scores. */
    function Max(): (m: nat)
      ensures forall c: Category :: Get(c) <= m
      ensures exists c: Category :: Get(c) == m
    {
      var m1 := if up >= down then up else down;
      var m2 := if m1 >= volatile then m1 else volatile;
      var m := if m2 >= neutral then m2 else neutral;
      assert Get(Uptrend) <= m && Get(Downtrend) <= m && Get(HighVolatility) <= m && Get(Neutral) <= m;
      assert m == up || m == down || m == volatile || m == neutral;
      m
    }
  }

  /** Which factual template the explanation uses, with the facts it quotes. */
  datatype Explanation =
    | InsufficientData
    | InsufficientIndicators
    | AboveAverages(price: real, rsi: real)
    | BelowAverages(price: real, rsi: real)
    | VolatilityFacts(percentile: real)
    | MixedSignals

  /** What the classifier returns. The guard results carry no scores. */
  datatype Classification = Classification(
    category: Category, confidence: real, explanation: Explanation, scores: Option<Scores>)

  /** The latest row's readings once the required indicators are present;
      the band position and the trend may still be unavailable. */
  datatype Snapshot = Snapshot(
    price: real, sma20: real, sma50: real, rsi: real, bbWidth: real, volatility: real,
    bbPosition: Option<real>, trend20: Option<real>)

  const MaxPoints: real := 4.0
  const NoSignalConfidence: real := 0.5

  /** SMA_20, SMA_50, RSI, BB_Width and Volatility are all available. */
  predicate HasRequired(r: IndicatorRow) {
    r.sma20.Some? && r.sma50.Some? && r.rsi.Some? && r.bbWidth.Some? && r.volatility.Some?
  }

  /** The series is non-empty and its latest row has the required indicators. */
  predicate Ready(rows: seq<IndicatorRow>) {
    |rows| > 0 && HasRequired(rows[|rows| - 1])
  }

  function SnapshotOf(r: IndicatorRow): Snapshot
    requires HasRequired(r)
  {
    Snapshot(r.bar.close, r.sma20.value, r.sma50.value, r.rsi.value, r.bbWidth.value,
             r.volatility.value, r.bbPosition, r.trend20)
  }

  /** The available values of a column, in order (missing values dropped). */
  function Available(col: seq<Option<real>>): (vs: seq<real>)
    ensures |vs| <= |col|
    ensures forall v :: v in vs <==> Some(v) in col
  {
    if |col| == 0 then []
    else
      var init := col[..|col| - 1];
      var rest := Available(init);
      assert col == init + [col[|col| - 1]];
      match col[|col| - 1]
      case None => rest
      case Some(v) => rest + [v]
  }

  /** Dropping missing values works piecewise: the available values of a
      concatenation are those of each part, in order, so every defined value
      is kept once per occurrence and nothing is reordered. */
  lemma {:induction false} AvailableAppend(a: seq<Option<real>>, b: seq<Option<real>>)
    ensures Available(a + b) == Available(a) + Available(b)
    ensures Available([]) == [] && Available([None]) == []
    ensures forall v :: Available([Some(v)]) == [v]
    decreases |b|
  {
    if |b| > 0 {
      var init := b[..|b| - 1];
      AvailableAppend(a, init);
      assert (a + b)[..|a + b| - 1] == a + init;
      assert (a + b)[|a + b| - 1] == b[|b| - 1];
    } else {
      assert a + b == a;
    }
    forall v ensures Available([Some(v)]) == [v] {
      assert [Some(v)][..0] == [];
    }
    var none: seq<Option<real>> := [None];
    assert none[..0] == [];
  }

  function VolatilityColumn(rows: seq<IndicatorRow>): seq<Option<real>> {
    seq(|rows|, i requires 0 <= i < |rows| => rows[i].volatility)
  }

  function WidthColumn(rows: seq<IndicatorRow>): seq<Option<real>> {
    seq(|rows|, i requires 0 <= i < |rows| => rows[i].bbWidth)
  }

  /** Percentage of the available volatilities strictly below the latest one.
      The latest is one of them and is not below itself, so the result lies in
      [0, 100). */
  function VolatilityPercentile(vols: seq<real>, latest: real): (p: real)
    requires latest in vols
    ensures 0.0 <= p < 100.0
  {
    CountBelowMember(vols, latest);
    var k := CountBelow(vols, latest) as real;
    var n := |vols| as real;
    assert k / n < 1.0 by {
      ScaledBounds(k, n, 0.0, k / n);
      assert (1.0 - k / n) * n == n - k;
    }
    k / n * 100.0
  }

  // ------------------------------------------------------------- rules

  predicate AboveShort(s: Snapshot) { s.price > s.sma20 }
  predicate AboveMedium(s: Snapshot) { s.price > s.sma50 }
  predicate RsiUpperZone(s: Snapshot) { 50.0 <= s.rsi <= 70.0 }
  /** The trend rule compares the trend with 0; an unavailable trend compares
      false both ways. */
  predicate Rising(s: Snapshot) { s.trend20.Some? && s.trend20.value > 0.0 }

  predicate BelowShort(s: Snapshot) { s.price < s.sma20 }
  predicate BelowMedium(s: Snapshot) { s.price < s.sma50 }
  predicate RsiLowerZone(s: Snapshot) { 30.0 <= s.rsi <= 50.0 }
  predicate Falling(s: Snapshot) { s.trend20.Some? && s.trend20.value < 0.0 }

  predicate BandExtreme(s: Snapshot) {
    s.bbPosition.Some? && (s.bbPosition.value < 0.2 || s.bbPosition.value > 0.8)
  }

  function Point(b: bool): nat { if b then 1 else 0 }

  function UpPoints(s: Snapshot): (p: nat)
    ensures p <= 4
  {
    Point(AboveShort(s)) + Point(AboveMedium(s)) + Point(RsiUpperZone(s)) + Point(Rising(s))
  }

  function DownPoints(s: Snapshot): (p: nat)
    ensures p <= 4
  {
    Point(BelowShort(s)) + Point(BelowMedium(s)) + Point(RsiLowerZone(s)) + Point(Falling(s))
  }

  /** Two points for a volatility percentile above 75, one for a band width
      above the historical upper quartile, one for a band position outside
      [0.2, 0.8]. */
  function VolatilityPoints(s: Snapshot, percentile: real, widthQuartile: real): (p: nat)
    ensures p <= 4
  {
    (if percentile > 75.0 then 2 else 0) + Point(s.bbWidth > widthQuartile) + Point(BandExtreme(s))
  }

  function Score(s: Snapshot, percentile: real, widthQuartile: real): (sc: Scores)
    ensures sc.neutral == 0
    ensures sc.up <= 4 && sc.down <= 4 && sc.volatile <= 4
  {
    Scores(UpPoints(s), DownPoints(s), VolatilityPoints(s, percentile, widthQuartile), 0)
  }

  /** A rule and its opposite never both fire, except the two RSI zones,
      which share exactly the value 50; an unavailable trend or band position
      fires no rule. */
  lemma OpposingRules(s: Snapshot)
    ensures !(AboveShort(s) && BelowShort(s))
    ensures !(AboveMedium(s) && BelowMedium(s))
    ensures !(Rising(s) && Falling(s))
    ensures RsiUpperZone(s) && RsiLowerZone(s) <==> s.rsi == 50.0
    ensures s.trend20.None? ==> !Rising(s) && !Falling(s)
    ensures s.bbPosition.None? ==> !BandExtreme(s)
    ensures UpPoints(s) + DownPoints(s) <= 4 + Point(s.rsi == 50.0)
  {
  }

  // -------------------------------------------------------- resolution

  /** The first category, in declaration order, whose score is the maximum. */
  function FirstMax(sc: Scores): (c: Category)
    ensures sc.Get(c) == sc.Max()
    ensures forall d: Category :: d.Rank() < c.Rank() ==> sc.Get(d) < sc.Max()
  {
    var m := sc.Max();
    if sc.up == m then Uptrend
    else if sc.down == m then Downtrend
    else if sc.volatile == m then HighVolatility
    else Neutral
  }

  datatype Resolution = Resolution(category: Category, confidence: real, scores: Scores)

  /** With no points anywhere: neutral, fixed confidence 0.5, and the neutral
      score set to 1. Otherwise the first maximal category, with confidence
      max/4 capped at 1. */
  function Resolve(sc: Scores): Resolution
  {
    var m := sc.Max();
    if m == 0 then Resolution(Neutral, NoSignalConfidence, sc.(neutral := 1))
    else
      var ratio := m as real / MaxPoints;
      Resolution(FirstMax(sc), if ratio < 1.0 then ratio else 1.0, sc)
  }

  /** Resolution of scores that the rules can produce (neutral 0, others ≤ 4):
      the no-signal fallback exactly when every score is 0; otherwise a
      non-neutral category attaining the maximum, no earlier category
      attaining it, and confidence max/4 in (0, 1]. */
  lemma ResolveShape(sc: Scores)
    requires sc.neutral == 0 && sc.up <= 4 && sc.down <= 4 && sc.volatile <= 4
    ensures var r := Resolve(sc);
      && (sc.Max() == 0 <==> r.category == Neutral)
      && (sc.Max() == 0 ==>
            r.confidence == 0.5 && r.scores == Scores(0, 0, 0, 1))
      && (sc.Max() > 0 ==>
            && r.scores == sc
            && sc.Get(r.category) == sc.Max()
            && (forall d: Category :: d.Rank() < r.category.Rank() ==> sc.Get(d) < sc.Max())
            && r.confidence == sc.Max() as real / 4.0
            && 0.0 < r.confidence <= 1.0)
  {
  }

  /** The explanation template that goes with a category. */
  function ExplanationFor(c: Category, s: Snapshot, percentile: real): Explanation {
    match c
    case Uptrend => AboveAverages(s.price, s.rsi)
    case Downtrend => BelowAverages(s.price, s.rsi)
    case HighVolatility => VolatilityFacts(percentile)
    case Neutral => MixedSignals
  }

  // ---------------------------------------------------------- classify

  /** Classify the latest row of an indicator series. */
  function Classify(rows: seq<IndicatorRow>, prims: Primitives): (r: Classification)
    ensures 0.0 <= r.confidence <= 1.0
    ensures r.scores.Some? ==>
      r.scores.value.up <= 4 && r.scores.value.down <= 4 &&
      r.scores.value.volatile <= 4 && r.scores.value.neutral <= 1
  {
    if |rows| == 0 then Classification(Neutral, 0.0, InsufficientData, None)
    else if !HasRequired(rows[|rows| - 1]) then
      Classification(Neutral, 0.0, InsufficientIndicators, None)
    else
      var s := SnapshotOf(rows[|rows| - 1]);
      var vcol := VolatilityColumn(rows);
      assert vcol[|rows| - 1] == Some(s.volatility);
      var pct := VolatilityPercentile(Available(vcol), s.volatility);
      var quartile := prims.upperQuartile(Available(WidthColumn(rows)));
      var sc := Score(s, pct, quartile);
      var res := Resolve(sc);
      ResolveShape(sc);
      Classification(res.category, res.confidence, ExplanationFor(res.category, s, pct), Some(res.scores))
  }

  /** The scores and percentile that Classify computes for a ready series. */
  function ReadyScores(rows: seq<IndicatorRow>, prims: Primitives): Scores
    requires Ready(rows)
  {
    var s := SnapshotOf(rows[|rows| - 1]);
    var vcol := VolatilityColumn(rows);
    assert vcol[|rows| - 1] == Some(s.volatility);
    var pct := VolatilityPercentile(Available(vcol), s.volatility);
    Score(s, pct, prims.upperQuartile(Available(WidthColumn(rows))))
  }

  /** The guard: an empty series or a latest row missing a required indicator
      yields Neutral with confidence exactly 0 and no scores, and those are
      the only inputs that yield confidence 0. */
  lemma GuardIsOnlyZeroConfidence(rows: seq<IndicatorRow>, prims: Primitives)
    ensures !Ready(rows) ==>
      Classify(rows, prims) ==
        Classification(Neutral, 0.0,
          if |rows| == 0 then InsufficientData else InsufficientIndicators, None)
    ensures Classify(rows, prims).confidence == 0.0 <==> !Ready(rows)
  {
    if Ready(rows) {
      ResolveShape(ReadyScores(rows, prims));
    }
  }

  /** For a ready series the result is the resolution of the rule scores:
      with no points, Neutral at confidence 0.5 with the neutral score 1;
      otherwise the first category in the order Uptrend, Downtrend,
      HighVolatility, Neutral that attains the maximum (never Neutral), with
      confidence max/4. */
  lemma ReadyClassification(rows: seq<IndicatorRow>, prims: Primitives)
    requires Ready(rows)
    ensures var sc := ReadyScores(rows, prims);
      var r := Classify(rows, prims);
      && r.scores.Some?
      && (sc.Max() == 0 ==>
            r.category == Neutral && r.confidence == 0.5 && r.scores.value.neutral == 1
            && r.explanation == MixedSignals)
      && (sc.Max() > 0 ==>
            && r.category != Neutral
            && r.scores == Some(sc)
            && sc.Get(r.category) == sc.Max()
            && (forall d: Category :: d.Rank() < r.category.Rank() ==> sc.Get(d) < sc.Max())
            && r.confidence == sc.Max() as real / 4.0)
  {
    ResolveShape(ReadyScores(rows, prims));
  }
}
