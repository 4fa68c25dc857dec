/** The two text producers of the insight agent: the filter every insight
    passes through before it is shown (_validate_insight) and the rule-based
    insight written when no language model answers (_generate_fallback). */
module Insight {
  import opened Wrappers
  import opened Text
  import opened Rules
  import opened Phrases

  /** A stripped insight shorter than this is taken as truncated. */
  const MinInsightLength := 50
  /** An insight shorter than this must end in punctuation. */
  const PunctuationLength := 100
  /** The shortest filtered text returned instead of the fallback. */
  const MinFilteredLength := 20

  predicate Terminal(c: char) {
    c == '.' || c == '!' || c == '?'
  }

  /** Both screening passes over `text`, every guard reading `lowered`. */
  function Screen(text: string, lowered: string): string {
    SafetyRulesScreened();
    ApplyRules(text, lowered, SafetyRules)
  }

  /** The closing check: an empty or nearly empty result gives way to the
      fallback; anything else is returned stripped. */
  function Finish(screened: string): string {
    if |screened| == 0 || |Strip(screened)| < MinFilteredLength then FallbackInsight
    else Strip(screened)
  }

  /** _validate_insight. The lower-cased copy is taken once, from the
      stripped text before any period is appended or any rule runs. */
  function ValidateInsight(insight: string): (r: string)
    ensures r == FallbackInsight || (Trimmed(r) && |r| >= MinFilteredLength)
    ensures |Strip(insight)| < MinInsightLength ==> r == FallbackInsight
  {
    if |insight| == 0 then FallbackInsight
    else
      var s := Strip(insight);
      var lowered := LowerText(s);
      if |s| < MinInsightLength then FallbackInsight
      else if |s| < PunctuationLength && !Terminal(s[|s| - 1]) then
        // The source tests the length and the punctuation a second time here.
        if |s| > MinFilteredLength then
          if !Terminal(s[|s| - 1]) then Finish(Screen(s + ".", lowered))
          else Finish(Screen(s, lowered))
        else FallbackInsight
      else Finish(Screen(s, lowered))
  }

  /** The text the passes run over, as an independent description: the
      stripped insight, with a period added when it is short and ends
      without punctuation. */
  function Punctuated(s: string): string {
    if 0 < |s| < PunctuationLength && !Terminal(s[|s| - 1]) then s + "." else s
  }

  /** The appended period cannot complete an occurrence of a phrase that
      does not end in a period. */
  lemma PeriodAddsNothing(s: string, q: string)
    requires |q| > 0 && Lower(q[|q| - 1]) != '.'
    ensures OccursIgnoringCase(s + ".", q) ==> OccursIgnoringCase(s, q)
  {
    var t := s + ".";
    forall k | 0 <= k && k + |q| == |t| ensures !MatchesAt(t, k, q) {
      assert t[k + |q| - 1] == '.';
      assert Lower(t[k + |q| - 1]) != Lower(q[|q| - 1]);
    }
    if OccursIgnoringCase(t, q) {
      var k :| 0 <= k <= |t| - |q| && MatchesAt(t, k, q);
      forall j | 0 <= j < |q| ensures Lower(s[k + j]) == Lower(q[j]) {
        assert t[k + j] == s[k + j];
      }
      assert MatchesAt(s, k, q);
    }
  }

  /** The stale guard is enough: every safety phrase found in the text the
      passes run over is found in the lower-cased copy of the stripped
      insight. */
  lemma GuardSeesPunctuated(s: string)
    ensures Sees(Punctuated(s), LowerText(s), SafetyRules)
  {
    SafetyRulesScreened();
    forall i, j | 0 <= i < |SafetyRules| && 0 <= j < |SafetyRules[i].alternatives|
      && OccursIgnoringCase(Punctuated(s), SafetyRules[i].alternatives[j])
      ensures Occurs(LowerText(s), SafetyRules[i].alternatives[j])
    {
      var q := SafetyRules[i].alternatives[j];
      PeriodAddsNothing(s, q);
      LoweredSearchAgrees(s, q);
    }
  }

  /** A long insight is never replaced by the fallback after screening:
      the result is exactly the screened, punctuated text, because every
      mark is longer than the closing threshold and nothing creates
      surrounding white space. */
  lemma ValidateInsightScreensLongText(insight: string)
    requires |Strip(insight)| >= MinInsightLength
    ensures var s := Strip(insight);
      ValidateInsight(insight) == Screen(Punctuated(s), LowerText(s))
  {
    var s := Strip(insight);
    var t := Punctuated(s);
    SafetyRulesScreened();
    assert |RemovedMark| == 21 && RemovedMark[0] == '[' && RemovedMark[20] == ']';
    assert |ContextMark| == 23 && ContextMark[0] == '[' && ContextMark[22] == ']';
    ApplyRulesKeepsShape(t, LowerText(s), SafetyRules, MinFilteredLength + 1);
    var r := Screen(t, LowerText(s));
    StripTrimmed(r);
  }

  /** No forbidden word and no recommendation phrase survives the filter,
      in any letter case. */
  lemma ValidateInsightNeverRecommends(insight: string, i: nat, j: nat)
    requires i < |SafetyRules| && j < |SafetyRules[i].alternatives|
    ensures !OccursIgnoringCase(ValidateInsight(insight), SafetyRules[i].alternatives[j])
  {
    SafetyRulesScreened();
    var r := ValidateInsight(insight);
    if r != FallbackInsight {
      var s := Strip(insight);
      ValidateInsightScreensLongText(insight);
      GuardSeesPunctuated(s);
      ApplyRulesRemoves(Punctuated(s), LowerText(s), SafetyRules, i, j);
    }
  }

  /** An insight of acceptable length with no safety phrase in it comes
      back stripped and, when short and unpunctuated, with a period. */
  lemma ValidateInsightPassesCleanText(insight: string)
    requires |Strip(insight)| >= MinInsightLength
    requires forall i, j :: 0 <= i < |SafetyRules| && 0 <= j < |SafetyRules[i].alternatives| ==>
      !OccursIgnoringCase(Strip(insight), SafetyRules[i].alternatives[j])
    ensures ValidateInsight(insight) == Punctuated(Strip(insight))
  {
    var s := Strip(insight);
    SafetyRulesScreened();
    ValidateInsightScreensLongText(insight);
    forall i | 0 <= i < |SafetyRules| ensures !Fires(LowerText(s), SafetyRules[i]) {
      forall j | 0 <= j < |SafetyRules[i].alternatives|
        ensures !Occurs(LowerText(s), SafetyRules[i].alternatives[j])
      {
        LoweredSearchAgrees(s, SafetyRules[i].alternatives[j]);
      }
    }
    ApplyRulesIdle(Punctuated(s), LowerText(s), SafetyRules);
  }

  /** What _generate_fallback reads from its arguments: the classification
      name and explanation (None when the key is missing), the price already
      rendered with four decimals (None when it is 'N/A'), and whether the
      news list is non-empty. */
  datatype FallbackInput = FallbackInput(
    classification: Option<string>,
    explanation: Option<string>,
    price: Option<string>,
    hasNews: bool)

  const DefaultClassification := "Neutro"

  function ClassificationName(input: FallbackInput): string {
    input.classification.GetOr(DefaultClassification)
  }

  function ExplanationText(input: FallbackInput): string {
    input.explanation.GetOr("")
  }

  // The fixed sentences without their closing period, written in short
  // pieces so that each piece can be inspected character by character.
  const OpeningHead := "O mercado de " + "BRL/USD apresenta " + "uma classificação " + "de '"
  const PriceHead := "O preço atual está " + "em "
  const NewsSentence :=
    "Eventos e notícias " + "recentes podem " + "estar influenciando " + "a volatilidade do " + "mercado"
  const QuietSentence :=
    "Recomenda-se " + "monitorar " + "indicadores " + "econômicos e " + "notícias relevantes " +
    "para entender " + "melhor o contexto " + "atual"

  function ClosingSentence(input: FallbackInput): string {
    if input.hasNews then NewsSentence else QuietSentence
  }

  /** The parts in the order the source appends them, as written: the
      opening, price and closing sentences carry their own period. */
  function SourceParts(input: FallbackInput): seq<string> {
    [OpeningHead + ClassificationName(input) + "'."]
    + (if |ExplanationText(input)| > 0 then [ExplanationText(input)] else [])
    + (if input.price.Some? then [PriceHead + input.price.value + "."] else [])
    + [ClosingSentence(input) + "."]
  }

  /** _generate_fallback as written: the parts joined by ". " and a final
      period appended. */
  function GenerateFallbackAsWritten(input: FallbackInput): string {
    Join(SourceParts(input), ". ") + "."
  }

  /** As written, the period after the opening sentence and the final
      period are always doubled. */
  lemma GenerateFallbackAsWrittenDoublesPeriods(input: FallbackInput)
    ensures var r := GenerateFallbackAsWritten(input);
      var n := |OpeningHead + ClassificationName(input) + "'."|;
      && n + 1 <= |r| && r[n - 1..n + 1] == ".."
      && r[|r| - 2..] == ".."
  {
    var parts := SourceParts(input);
    var opening := OpeningHead + ClassificationName(input) + "'.";
    assert parts[0] == opening;
    assert |parts| >= 2;
    var rest := Join(parts[1..], ". ");
    assert Join(parts, ". ") == opening + ". " + rest;
    var r := GenerateFallbackAsWritten(input);
    assert r == opening + ". " + rest + ".";
    assert r[|opening| - 1] == '.' && r[|opening|] == '.';
    JoinEndsWithLast(parts, ". ");
    var last := ClosingSentence(input) + ".";
    assert parts[|parts| - 1] == last;
    var j := Join(parts, ". ");
    assert j[|j| - 1] == last[|last| - 1] == '.';
  }

  /** As written, the output opens with the classification sentence
      followed by a doubled period, and closes with the sentence chosen by
      whether there is news, followed by a doubled period. */
  lemma GenerateFallbackAsWrittenFrame(input: FallbackInput)
    ensures var r := GenerateFallbackAsWritten(input);
      var opening := OpeningHead + ClassificationName(input) + "'.. ";
      var closing := ClosingSentence(input) + "..";
      && |opening| <= |r| && r[..|opening|] == opening
      && |closing| <= |r| && r[|r| - |closing|..] == closing
  {
    var parts := SourceParts(input);
    assert |parts| >= 2;
    var rest := Join(parts[1..], ". ");
    assert Join(parts, ". ") == parts[0] + ". " + rest;
    JoinEndsWithLast(parts, ". ");
    assert parts[|parts| - 1] == ClosingSentence(input) + ".";
  }

  /** The sentences with the period each is meant to end with left to the
      join: the corrected generator. */
  function Sentences(input: FallbackInput): (parts: seq<string>)
    ensures |parts| == 2 + (if |ExplanationText(input)| > 0 then 1 else 0) + (if input.price.Some? then 1 else 0)
    ensures parts[0] == OpeningHead + ClassificationName(input) + "'"
    ensures |ExplanationText(input)| > 0 ==> parts[1] == ExplanationText(input)
    ensures input.price.Some? ==> parts[|parts| - 2] == PriceHead + input.price.value
    ensures parts[|parts| - 1] == ClosingSentence(input)
  {
    [OpeningHead + ClassificationName(input) + "'"]
    + (if |ExplanationText(input)| > 0 then [ExplanationText(input)] else [])
    + (if input.price.Some? then [PriceHead + input.price.value] else [])
    + [ClosingSentence(input)]
  }

  /** The fallback insight with one period after every sentence. */
  function GenerateFallback(input: FallbackInput): string {
    Join(Sentences(input), ". ") + "."
  }

  /** Two consecutive periods do not occur. */
  predicate NoDoublePeriod(s: string) {
    forall k :: 0 <= k < |s| - 1 ==> !(s[k] == '.' && s[k + 1] == '.')
  }

  predicate NoPeriod(s: string) {
    forall k :: 0 <= k < |s| ==> s[k] != '.'
  }

  predicate EndsWithoutPeriod(s: string) {
    |s| == 0 || s[|s| - 1] != '.'
  }

  lemma ConcatNoDoublePeriod(a: string, b: string)
    requires NoDoublePeriod(a) && NoDoublePeriod(b)
    requires EndsWithoutPeriod(a) || |b| == 0 || b[0] != '.'
    ensures NoDoublePeriod(a + b)
  {
    var t := a + b;
    forall k | 0 <= k < |t| - 1 ensures !(t[k] == '.' && t[k + 1] == '.') {
      if k + 1 < |a| {
        assert t[k] == a[k] && t[k + 1] == a[k + 1];
      } else if k >= |a| {
        assert t[k] == b[k - |a|] && t[k + 1] == b[k - |a| + 1];
      } else {
        assert t[k] == a[|a| - 1] && t[k + 1] == b[0];
      }
    }
  }

  lemma FixedSentencesHaveNoPeriod()
    ensures NoPeriod(OpeningHead) && NoPeriod(PriceHead)
    ensures NoPeriod(NewsSentence) && NoPeriod(QuietSentence)
  {
    HeadsHaveNoPeriod();
    ClosingsHaveNoPeriod();
  }

  lemma HeadsHaveNoPeriod()
    ensures NoPeriod(OpeningHead) && NoPeriod(PriceHead)
  {
    assert NoPeriod("O mercado de ") && NoPeriod("BRL/USD apresenta ");
    assert NoPeriod("uma classificação ") && NoPeriod("de '");
    assert NoPeriod("O preço atual está ") && NoPeriod("em ");
  }

  lemma ClosingsHaveNoPeriod()
    ensures NoPeriod(NewsSentence) && NoPeriod(QuietSentence)
  {
    NewsSentenceHasNoPeriod();
    QuietSentenceHasNoPeriod();
  }

  lemma NewsSentenceHasNoPeriod()
    ensures NoPeriod(NewsSentence)
  {
    assert NoPeriod("Eventos e notícias ") && NoPeriod("recentes podem ");
    assert NoPeriod("estar influenciando ") && NoPeriod("a volatilidade do ") && NoPeriod("mercado");
  }

  lemma QuietSentenceHasNoPeriod()
    ensures NoPeriod(QuietSentence)
  {
    assert NoPeriod("Recomenda-se ") && NoPeriod("monitorar ") && NoPeriod("indicadores ");
    assert NoPeriod("econômicos e ") && NoPeriod("notícias relevantes ") && NoPeriod("para entender ");
    assert NoPeriod("melhor o contexto ") && NoPeriod("atual");
  }

  /** Joining parts that neither hold nor end in a doubled period, with
      ". " between them, doubles no period. */
  lemma {:induction false} JoinNoDoublePeriod(parts: seq<string>)
    requires |parts| > 0
    requires forall i :: 0 <= i < |parts| ==> NoDoublePeriod(parts[i]) && EndsWithoutPeriod(parts[i])
    ensures NoDoublePeriod(Join(parts, ". ")) && EndsWithoutPeriod(Join(parts, ". "))
  {
    if |parts| > 1 {
      var rest := Join(parts[1..], ". ");
      JoinNoDoublePeriod(parts[1..]);
      ConcatNoDoublePeriod(parts[0], ". ");
      ConcatNoDoublePeriod(parts[0] + ". ", rest);
      assert Join(parts, ". ") == parts[0] + ". " + rest;
    }
  }

  /** The corrected fallback doubles no period, provided the classification
      name, the explanation and the rendered price do not themselves hold
      two periods in a row or, for the latter two, end in one. */
  lemma GenerateFallbackSinglePeriods(input: FallbackInput)
    requires NoDoublePeriod(ClassificationName(input))
    requires NoDoublePeriod(ExplanationText(input)) && EndsWithoutPeriod(ExplanationText(input))
    requires input.price.Some? ==> NoDoublePeriod(input.price.value) && EndsWithoutPeriod(input.price.value)
    ensures NoDoublePeriod(GenerateFallback(input))
    ensures var r := GenerateFallback(input); r[|r| - 1] == '.'
  {
    FixedSentencesHaveNoPeriod();
    var parts := Sentences(input);
    var name := ClassificationName(input);
    ConcatNoDoublePeriod(OpeningHead, name);
    ConcatNoDoublePeriod(OpeningHead + name, "'");
    if input.price.Some? {
      ConcatNoDoublePeriod(PriceHead, input.price.value);
    }
    forall i | 0 <= i < |parts| ensures NoDoublePeriod(parts[i]) && EndsWithoutPeriod(parts[i]) {
    }
    JoinNoDoublePeriod(parts);
    ConcatNoDoublePeriod(Join(parts, ". "), ".");
  }

  /** The corrected fallback opens with the classification sentence and
      closes with the news sentence, each followed by one period. */
  lemma GenerateFallbackFrame(input: FallbackInput)
    ensures var r := GenerateFallback(input);
      var opening := OpeningHead + ClassificationName(input) + "'. ";
      var closing := ClosingSentence(input) + ".";
      && |opening| <= |r| && r[..|opening|] == opening
      && |closing| <= |r| && r[|r| - |closing|..] == closing
  {
    var parts := Sentences(input);
    var rest := Join(parts[1..], ". ");
    assert Join(parts, ". ") == parts[0] + ". " + rest;
    JoinEndsWithLast(parts, ". ");
  }
}
