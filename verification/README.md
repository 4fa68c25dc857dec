# forex-advisor core in Dafny

The model covers the pure core of forex-advisor, a BRL/USD market-context service. It has four parts.

- **Indicator engine** (`indicators.dfy`). It computes these indicators over a daily OHLC series, one row per bar:
  - SMA(20/50/200);
  - RSI(14);
  - Bollinger bands (20, 2σ), with width and position;
  - annualised volatility;
  - EMA-based MACD(12, 26, 9);
  - centred support/resistance (20);
  - simple returns;
  - the SMA trends.

  Each indicator is `None` during its warm-up. Arithmetic is exact over `real`. The sample standard deviation, √252 and the interpolated 75th percentile are abstract `Primitives`.
- **Rule-based regime classifier** (`classifier.dfy`), with end-to-end scenarios in `pipeline.dfy`.
  - Integer points go to Uptrend, Downtrend and HighVolatility.
  - The arg-max is taken with the precedence Uptrend, Downtrend, HighVolatility, Neutral.
  - When nothing scores, the result is Neutral with confidence 0.5.
  - A guard makes missing warm-up data "Neutral, confidence 0".
- **Walk-forward labelling** for the feature-importance explanation (`explainability.dfy`).
  - Complete rows are kept, with the `< 50` guard.
  - Label i is the classifier applied to rows 0..i.
- **Text and data collaborators**:
  - the OHLC validator and tail (`forex_data.dfy`);
  - the news-answer parser and prompt formatter (`news.dfy`);
  - the insight safety filter and fallback insight (`insight.dfy`), built on:
    - case-insensitive multi-phrase replacement (`substitution.dfy`);
    - ordered replacement rules (`rules.dfy`);
    - the forbidden-word list and the three recommendation regexes expanded into literal alternatives (`phrases.dfy`).

Shared helpers:
- `text.dfy`: Python's `strip`, `lower`, `split`, `join` and `str(n)`, and substring search.
- `series.dfy`: sums, means and bounds over `seq<real>`.
- `wrappers.dfy`: `Option`.

Where the code departs from the usual conventions, the model follows the code:
- **RSI with no gains and no losses.** RSI is conventionally 100 when the average loss is zero. The code divides the average gain by the average loss, so a window with neither computes 0/0, a NaN; the model makes the RSI unavailable there. Only a positive gain with zero loss gives 100.
- **Rising series.** A strictly rising series does not collect all four Uptrend points. Its RSI is 100, outside the 50–70 zone the rule asks for, so Uptrend scores 3. It still wins unless all four volatility points fire. `Pipeline.RisingSeriesFavoursUptrend` proves exactly this.
- **Zero denominators.**
  - On zero band width pandas divides and yields NaN or ±inf for the band position. The model makes the value `None` when the width is 0. This agrees with pandas for a true standard deviation: a zero-width window is constant, so the division is 0/0.
  - For the same reason `Returns` is `None` after a zero close.

## Model

| member | source | states |
|---|---|---|
| Indicators.AllIndicators | src/analysis/analysis.py:68-109 | one indicator row per input bar, in input order, each carrying its bar unchanged (the input copy is not altered) |
| Indicators.IndicatorsCausal | src/analysis/analysis.py:68-109 | the table is causal: computed on the first k bars it agrees, at every row i < k, with the table of the whole series on the bar and on every column but support and resistance; those use a centred window and are missing in the prefix's last 9 rows |
| Indicators.SmaWithinWindow | src/analysis/analysis.py:15-17 | SMA(n) is available exactly from position n−1, and then lies between the least and greatest close of its n-bar window |
| Indicators.SmaOfConstant | src/analysis/analysis.py:15-17 | the SMA of a constant window is that constant, so it is the mean of the window |
| Indicators.RisingCloseAboveSma | src/analysis/analysis.py:15-17 | over a strictly rising window of n ≥ 2 closes the latest close is strictly above its SMA |
| Indicators.RsiShape | src/analysis/analysis.py:20-28 | RSI is unavailable exactly during warm-up or when the window had neither gains nor losses; otherwise it equals 100·G/(G+L), lies in [0, 100], and is 100 exactly when losses are 0 and gains positive |
| Indicators.RsiRatio | src/analysis/analysis.py:26-27 | 100 − 100/(1 + (G/n)/(L/n)) equals the upward share 100·G/(G+L), which lies in [0, 100) when L > 0 |
| Indicators.RisingRsiSaturates | src/analysis/analysis.py:20-28 | over n strictly rising closes the RSI is exactly 100 |
| Indicators.FlatRsiUnavailable | src/analysis/analysis.py:20-28 | over a constant stretch the RSI is unavailable (0/0) |
| Indicators.BandsShape | src/analysis/analysis.py:31-39 | the middle band is the SMA; upper − lower = 2·k·std; lower ≤ middle ≤ upper; the width (line 90) is non-negative; the position (line 91) is unavailable exactly when the width is 0, else in [0, 1] exactly when the close lies inside the bands |
| Indicators.VolatilityShape | src/analysis/analysis.py:42-46 | volatility is available exactly when the window holds n defined returns, and is then non-negative |
| Indicators.EmaRecurrence | src/analysis/analysis.py:49-57 | the EMA without bias adjustment is seeded with the first value and follows e[t] = α·x[t] + (1−α)·e[t−1] |
| Indicators.EmaPrefix | src/analysis/analysis.py:49-57 | the EMA is causal: its first k values depend only on the first k inputs |
| Indicators.EmaWithinRange | src/analysis/analysis.py:49-57 | with 0 < α ≤ 1 every EMA value lies within the range of the inputs |
| Indicators.EmaStream | src/analysis/analysis.py:51-52 | a one-pass streaming computation with α = 2/(span+1) produces exactly the EMA |
| Indicators.MacdShape | src/analysis/analysis.py:49-57 | MACD line = fast EMA − slow EMA and histogram = line − signal, one value per bar from the first bar on; a constant series gives all three identically zero |
| Indicators.SupportResistanceShape | src/analysis/analysis.py:60-65 | the centred rolling min/max is available only where the whole window fits inside the series, and then support ≤ low[i] and resistance ≥ high[i] |
| Indicators.TrendIsWindowChange | src/analysis/analysis.py:105-107 | the trend (first difference of SMA(n)) is available exactly from position n on and equals (close[i] − close[i−n]) / n |
| Classifier.Available | src/analysis/analysis.py:147 | dropna keeps exactly the defined values of the column, never more of them than the column has |
| Classifier.AvailableAppend | src/analysis/analysis.py:147 | dropna works piecewise: the defined values of a concatenation are those of each part in order, a missing value contributes nothing and a defined value contributes itself once |
| Classifier.VolatilityPercentile | src/analysis/analysis.py:147 | the share of volatilities strictly below the latest one, times 100, lies in [0, 100) |
| Classifier.Score | src/analysis/analysis.py:149-182 | each category score is an integer in 0..4 and Neutral scores 0 by rule |
| Classifier.OpposingRules | src/analysis/analysis.py:156-174 | the price and trend rules never award both Uptrend and Downtrend; both RSI zones fire exactly at RSI = 50; an unavailable trend or band position awards nothing |
| Classifier.FirstMax | src/analysis/analysis.py:191 | the chosen category attains the maximum and every category declared before it scores strictly less |
| Classifier.ResolveShape | src/analysis/analysis.py:184-192 | no points anywhere gives Neutral, confidence 0.5 and the Neutral score 1; otherwise a non-Neutral first maximal category with confidence max/4 in (0, 1] |
| Classifier.Classify | src/analysis/analysis.py:112-214 | the confidence always lies in [0, 1], and reported scores are at most 4 (Neutral at most 1) |
| Classifier.GuardIsOnlyZeroConfidence | src/analysis/analysis.py:122-137 | an empty series or a missing SMA_20/SMA_50/RSI/BB_Width/Volatility gives Neutral, confidence 0, with no scores; and only those inputs give confidence 0 |
| Classifier.ReadyClassification | src/analysis/analysis.py:184-207 | for a ready series the result is the resolution of the rule scores, including the mixed-signals explanation when nothing scores |
| Explainability.Project | src/analysis/analysis.py:227-234 | the cleaned row carries the bar (with its close) and the nine feature columns unchanged; every other column, Trend_20 included, reads as unavailable |
| Explainability.CleanRows | src/analysis/analysis.py:233-234 | the cleaned rows are no more than the input rows, all complete and without a trend |
| Explainability.CleanRowsMembership | src/analysis/analysis.py:233-234 | a cleaned row is the projection of a complete input row, and every complete input row is kept |
| Explainability.CleanRowsAppend | src/analysis/analysis.py:233-234 | dropna works row by row: the cleaned rows of a concatenation are those of each part in order, and a single row is kept, projected, exactly when it is complete |
| Explainability.LabelIsPrefixClassification | src/analysis/analysis.py:240-247 | label i is the classification of cleaned rows 0..i |
| Explainability.LabelsIgnoreLaterRows | src/analysis/analysis.py:240-247 | walk-forward labelling is causal: two series agreeing on rows 0..i get the same label i |
| Explainability.LabelLoop | src/analysis/analysis.py:240-247 | the loop yields one label per cleaned row, each the classification of its prefix |
| Explainability.TrainingData | src/analysis/analysis.py:228-249 | nothing is trained exactly when fewer than 50 rows are complete; otherwise the feature columns, the cleaned rows and one label per row |
| Explainability.NoTrendPoints | src/analysis/analysis.py:163-174 | without a trend column Uptrend and Downtrend score at most 3 |
| Explainability.TrainingLabelsAreWalkForward | src/analysis/analysis.py:240-249 | every training label is the classifier's answer on the cleaned prefix, a ready series scored without the trend rule |
| Pipeline.ShortSeriesIsNeutral | src/analysis/analysis.py:131-137 | fewer than 50 bars classify as Neutral, confidence 0, no scores |
| Pipeline.FlatSeriesIsNeutral | src/analysis/analysis.py:131-137 | a constant close series has no RSI, so it classifies as Neutral, confidence 0 |
| Pipeline.RisingCloses | src/analysis/analysis.py:81-106 | at the end of a strictly rising positive series of ≥ 50 closes both SMAs are below the close, RSI is 100, band width and volatility are available and Trend_20 is positive |
| Pipeline.RisingLatestRow | src/analysis/analysis.py:81-106 | the latest indicator row of such a series has every required indicator, the close above both averages, RSI 100 and a rising SMA_20 |
| Pipeline.SaturatedUptrendRow | src/analysis/analysis.py:156-192 | such a row scores Uptrend 3 and Downtrend 0, and is classified Uptrend with confidence ≥ 0.75 unless all four volatility points fire |
| Pipeline.RisingSeriesFavoursUptrend | src/analysis/analysis.py:156-192 | a strictly rising positive series of ≥ 50 bars is classified Uptrend (or HighVolatility with 4 points) with confidence ≥ 0.75 |
| ForexData.Keep | src/data/forex-scrapping.py:69-85 | the kept bars are no more than the input rows and all OHLC-consistent |
| ForexData.KeepMembership | src/data/forex-scrapping.py:69-85 | a bar is kept exactly when some input row has all four prices, they are consistent, and the row is that bar |
| ForexData.KeepAppend | src/data/forex-scrapping.py:69-85 | both filters work row by row: the bars kept from a concatenation are those kept from each part in order, and a single row is kept exactly when it has all four prices and they are consistent |
| ForexData.KeepCounts | src/data/forex-scrapping.py:69-85 | each bar is kept as many times as there are input rows with all four consistent prices that become it |
| ForexData.SortByDateCorrect | src/data/forex-scrapping.py:98 | sorting by date yields a date-ordered permutation of its input |
| ForexData.ValidateData | src/data/forex-scrapping.py:58-100 | validation never adds rows |
| ForexData.ValidateDataCorrect | src/data/forex-scrapping.py:58-100 | the output is ordered by date, holds each bar as many times as there are complete consistent input rows that become it, and holds nothing else (the outlier scan removes nothing) |
| ForexData.ValidateDataIdempotent | src/data/forex-scrapping.py:58-100 | validating an already validated table gives it back unchanged |
| ForexData.LatestData | src/data/forex-scrapping.py:103-114 | the result is a suffix of the table, never longer than it |
| ForexData.LatestDataLength | src/data/forex-scrapping.py:114 | tail(days) keeps min(days, n) rows for days ≥ 0 and drops −days rows from the front otherwise |
| ForexData.LatestDataCompose | src/data/forex-scrapping.py:103-114 | a tail of a tail is the shorter tail, and the default of one day is the last row |
| News.StrippedLineStartsWithNoBlank | src/news/news-scrapping.py:135-142 | after strip the starts-with-blank test never fails: every non-empty stripped line under 150 characters is a title |
| News.StepTitles | src/news/news-scrapping.py:135-147 | one line adds its stripped text to the item titles exactly when it is a title line |
| News.RunTitles | src/news/news-scrapping.py:131-150 | the formed items are one per title line, in title-line order, each dated 'Recent' with a snippet that is empty or starts with a blank |
| News.RunItems | src/news/news-scrapping.py:131-150 | the formed items are the answer read from the front: item k has the k-th title line as title and, as snippet, ' ' + line for every continuation line directly below it up to the next blank or title line; continuation lines with no open item are dropped |
| News.ParseResponse | src/news/news-scrapping.py:127-159 | the parser returns between 1 and 5 items |
| News.FallbackItem | src/news/news-scrapping.py:152-157 | the fallback item is titled 'Contexto sobre {pair}', dated 'Recent', and its snippet is the first min(300, len) characters of the answer |
| News.ParseResponseShape | src/news/news-scrapping.py:127-159 | with no title line the result is the single fallback item; otherwise it is the first min(5, k) items of the front-to-back reading, titled by the title lines in order |
| News.FormatNews | src/news/news-scrapping.py:192-201 | no news gives the fixed message; otherwise the text starts with the header |
| News.BlocksPrefix | src/news/news-scrapping.py:196-199 | entry i+1 follows the entries of the items before it |
| News.FormatNewsListsEveryItem | src/news/news-scrapping.py:195-201 | every item appears, in order, as its entry numbered from 1, right after the header and the earlier entries |
| Text.Strip | src/agent/agent.py:284 | the stripped text is no longer than the input, has no whitespace at either end, and is empty exactly when the input is all whitespace |
| Text.StripRemovesOnlySpace | src/news/news-scrapping.py:135 | strip removes only whitespace: its result is a slice with only whitespace outside it |
| Text.StripIdempotent | src/agent/agent.py:320 | stripping twice is stripping once |
| Text.LoweredSearchAgrees | src/agent/agent.py:299-303 | a lower-case phrase is in the lower-cased text exactly when a case-insensitive search finds it |
| Text.Split | src/news/news-scrapping.py:131 | split yields at least one piece and no piece holds the separator |
| Text.SplitJoin | src/news/news-scrapping.py:131 | joining the pieces with the separator gives the text back |
| Text.NatToStringRoundTrip | src/news/news-scrapping.py:196-197 | the decimal number of an entry reads back as that number |
| Substitution.FirstMatchFrom | src/agent/agent.py:302-303 | the alternative tried is the first in list order that matches, and no earlier one matches |
| Substitution.SubstituteUnchanged | src/agent/agent.py:302-303 | a text with no occurrence of any phrase is returned unchanged |
| Substitution.SubstituteLength | src/agent/agent.py:302-303 | either nothing was replaced or the result is at least as long as the replacement |
| Substitution.NoNewOccurrence | src/agent/agent.py:302-303 | replacement creates no new occurrence of a phrase kept apart from the replacement text |
| Substitution.SubstituteRemoves | src/agent/agent.py:302-303 | after replacement no listed phrase kept apart from the replacement occurs, in any letter case |
| Rules.ApplyRulesNoNew | src/agent/agent.py:299-314 | the ordered passes never create an occurrence of a phrase kept apart from their marks |
| Rules.ApplyRulesRemoves | src/agent/agent.py:299-314 | when the guard sees every occurring alternative, no alternative of any rule survives the passes |
| Rules.ApplyRulesIdle | src/agent/agent.py:299-314 | when no guard fires the text passes through unchanged |
| Rules.ApplyRulesKeepsShape | src/agent/agent.py:299-320 | a trimmed text at least as long as every mark stays trimmed and that long |
| Phrases.Alternatives | src/agent/agent.py:305-309 | a pattern of alternative heads followed by a blank and alternative tails has as many literal alternatives as heads times tails |
| Phrases.AlternativesOrder | src/agent/agent.py:305-309 | alternatives are ordered head first, then tail, as the regular expression tries them |
| Phrases.AlternativesMembers | src/agent/agent.py:305-309 | the alternatives are exactly the phrases head + " " + tail |
| Phrases.PatternsAreExpansions | src/agent/agent.py:305-309 | the three pattern lists are the expansions of the three regular expressions, the optional `que você ` group tried first |
| Phrases.ForbiddenScreened | src/agent/agent.py:14-19 | every forbidden word is lower-case, ends in a letter, holds no bracket, and occurs in neither mark nor the fallback insight |
| Phrases.FirstPatternScreened | src/agent/agent.py:306 | every alternative of the first recommendation pattern is screened |
| Phrases.SecondPatternScreened | src/agent/agent.py:307 | every alternative of the second recommendation pattern is screened |
| Phrases.ThirdPatternScreened | src/agent/agent.py:308 | every alternative of the third recommendation pattern is screened |
| Phrases.SafetyRulesLayout | src/agent/agent.py:299-314 | the rules are the 19 forbidden words in list order, each to the removal mark, then the three patterns, each to the context mark |
| Phrases.SafetyRulesScreened | src/agent/agent.py:14-19 | every safety phrase is screened and kept apart from both marks, so the general rule results apply |
| Insight.ValidateInsight | src/agent/agent.py:270-320 | the result is the fallback insight or a stripped text of at least 20 characters; an empty or short (< 50 after strip) insight gives the fallback |
| Insight.PeriodAddsNothing | src/agent/agent.py:291-303 | the appended period cannot complete an occurrence of a phrase that does not end in a period |
| Insight.GuardSeesPunctuated | src/agent/agent.py:285-314 | the lower-cased copy taken before the period is appended sees every safety phrase of the punctuated text |
| Insight.ValidateInsightScreensLongText | src/agent/agent.py:291-320 | for a stripped insight of ≥ 50 characters the result is the screened, punctuated text: the ≤ 20 branch and the closing fallback are never taken |
| Insight.ValidateInsightNeverRecommends | src/agent/agent.py:299-314 | no forbidden word and no recommendation phrase survives the filter, in any letter case |
| Insight.ValidateInsightPassesCleanText | src/agent/agent.py:284-320 | a long insight with no safety phrase comes back stripped, with a period only when under 100 characters and unpunctuated |
| Insight.GenerateFallbackAsWrittenDoublesPeriods | src/agent/agent.py:254-267 | as written, the opening sentence and the last sentence always end in two periods |
| Insight.GenerateFallbackAsWrittenFrame | src/agent/agent.py:246-267 | as written, the output opens with the classification sentence followed by ".. " and closes with the sentence chosen by whether there is news followed by ".." |
| Insight.Sentences | src/agent/agent.py:248-265 | the classification sentence (default 'Neutro') first, then the explanation when non-empty, then the price sentence when a price is given, then the news or no-news sentence; nothing else |
| Insight.GenerateFallbackSinglePeriods | src/agent/agent.py:246-267 | the corrected fallback never holds two periods in a row and ends with '.' |
| Insight.GenerateFallbackFrame | src/agent/agent.py:246-267 | the corrected fallback opens with the classification sentence and closes with the sentence chosen by whether there is news |

## Left out

- Network, LLM and file I/O are not modelled: the yfinance download, the news and insight model calls, the prompt building, `main.py`, logging, and the `__main__` blocks.
- The random-forest fit, feature scaling and importance sort after the walk-forward labels are not modelled. They belong to a foreign library; only the label generation and the `< 50` guard are modelled.
- The `try/except` around the explanation step is not modelled: every modelled step is total.
- The sample standard deviation, √252 and `quantile(0.75)` are abstract parameters (`Primitives`). The standard deviation is only known to be non-negative.
- Floating-point rounding is not modelled: arithmetic is exact over `real`.
- The interquartile outlier scan in `validate_data` is not modelled, because it only logs.
- ForexData.SortByDate is a stable sort. pandas' default sort is not guaranteed stable, so the model fixes one order for rows with equal dates.
- The formatted numbers in explanations are not modelled. The classifier returns a template and its facts (`Explanation`).
- Likewise, `_generate_fallback` receives the price already rendered with `:.4f` as a string.
- The available-features intersection in the explanation step is not modelled. The model assumes every feature column is present, as `calculate_all_indicators` guarantees.
- Text.Lower covers A–Z and the Latin-1 capitals only. The phrases screened for are ASCII plus é/ê/ç/ã/ô. Python's full Unicode `lower()` and `IGNORECASE` case folding, such as the Kelvin sign or the long s, are not modelled.
- Indicators.VolatilityAt and Indicators.ReturnAt give `None` after a zero close. pandas gives ±inf or NaN there, which the classifier's comparisons would read differently.
- Explainability.CleanRowsMembership states membership only; the order and multiplicity of the cleaned rows are stated by Explainability.CleanRowsAppend.
- ForexData.KeepMembership states membership only; the order of the kept bars is stated by ForexData.KeepAppend and their multiplicity by ForexData.KeepCounts.
- The insight generator's re-check of the validated length is not part of this model, nor is provider dispatch.
- `_fetch_news_fallback` is not modelled, because it reads the clock.

## Findings

| source | as written | input that shows it | evidently intended | confidence | as-written member | corrected member |
|---|---|---|---|---|---|---|
| src/agent/agent.py:254-267 | the opening, price and closing sentences already end in '.', and `". ".join(parts) + "."` adds another period after each of them | `classification={'classification': 'Neutro'}`, no price, `news_list=[]` gives "…de 'Neutro'.. Recomenda-se … contexto atual.." | one period after each sentence | high; not executed | Insight.GenerateFallbackAsWrittenDoublesPeriods | Insight.GenerateFallbackSinglePeriods |
