/** The vocabulary the insight filter screens for: the forbidden words,
    the three recommendation patterns expanded into their alternatives, the
    two marks that replace them and the fixed fallback insight. Every phrase
    is shown to be "screened": lower-case, ending in a letter, free of
    brackets and absent from both marks and from the fallback text. */
module Phrases {
  import opened Text
  import opened Substitution
  import opened Rules

  const RemovedMark := "[informação removida]"
  const ContextMark := "[informação contextual]"

  /** The insight returned whenever the filter rejects its input. */
  const FallbackInsight :=
    "O mercado apresenta " +
    "condições que " +
    "requerem " +
    "monitoramento " +
    "contínuo. " +
    "Recomenda-se " +
    "acompanhar " +
    "indicadores " +
    "técnicos e notícias " +
    "relevantes para " +
    "entender melhor o " +
    "contexto atual."

  /** FORBIDDEN_WORDS, in list order. */
  const ForbiddenWords: seq<string> := [
    "compre agora", "venda agora", "compre", "venda", "invista", "não invista",
    "é o momento de comprar", "é o momento de vender", "deve comprar", "deve vender",
    "recomendo comprar", "recomendo vender", "sugiro comprar", "sugiro vender",
    "buy now", "sell now", "you should buy", "you should sell", "invest now"
  ]

  const Verbs: seq<string> := ["comprar", "vender", "investir"]

  /** The head followed by a blank and each tail, in tail order. */
  function Expand(head: string, tails: seq<string>): (alts: seq<string>)
    ensures |alts| == |tails|
    ensures forall j :: 0 <= j < |tails| ==> alts[j] == head + " " + tails[j]
  {
    seq(|tails|, j requires 0 <= j < |tails| => head + " " + tails[j])
  }

  /** The literal alternatives of the regular expression `(h1|h2|..) (t1|t2|..)`
      in the order the regular expression engine tries them. */
  function Alternatives(heads: seq<string>, tails: seq<string>): (alts: seq<string>)
    ensures |alts| == |heads| * |tails|
  {
    if |heads| == 0 then []
    else
      assert |heads| * |tails| == |tails| + (|heads| - 1) * |tails|;
      Expand(heads[0], tails) + Alternatives(heads[1..], tails)
  }

  /** Alternatives are ordered by head first, then by tail: a match is
      tried with the earliest head and, for that head, the earliest tail. */
  lemma {:induction false} AlternativesOrder(heads: seq<string>, tails: seq<string>, i: nat, j: nat)
    requires i < |heads| && j < |tails|
    ensures i * |tails| + j < |Alternatives(heads, tails)|
    ensures Alternatives(heads, tails)[i * |tails| + j] == heads[i] + " " + tails[j]
  {
    var n := |tails|;
    var first := Expand(heads[0], tails);
    var rest := Alternatives(heads[1..], tails);
    assert Alternatives(heads, tails) == first + rest;
    if i > 0 {
      AlternativesOrder(heads[1..], tails, i - 1, j);
      var k := (i - 1) * n + j;
      assert i * n + j == n + k by {
        assert i * n == (i - 1) * n + n;
      }
    }
  }

  /** The alternatives are exactly the phrases the regular expression
      matches: a head, a blank and a tail. */
  lemma {:induction false} AlternativesMembers(heads: seq<string>, tails: seq<string>, q: string)
    ensures q in Alternatives(heads, tails) <==>
      exists i, j :: 0 <= i < |heads| && 0 <= j < |tails| && q == heads[i] + " " + tails[j]
  {
    if |heads| > 0 {
      var first := Expand(heads[0], tails);
      var rest := Alternatives(heads[1..], tails);
      assert Alternatives(heads, tails) == first + rest;
      AlternativesMembers(heads[1..], tails, q);
      if q in rest {
        var i, j :| 0 <= i < |heads[1..]| && 0 <= j < |tails| && q == heads[1..][i] + " " + tails[j];
        assert q == heads[i + 1] + " " + tails[j];
      }
      if exists i, j :: 0 <= i < |heads| && 0 <= j < |tails| && q == heads[i] + " " + tails[j] {
        var i, j :| 0 <= i < |heads| && 0 <= j < |tails| && q == heads[i] + " " + tails[j];
        if i == 0 {
          assert q == first[j];
        } else {
          assert q == heads[1..][i - 1] + " " + tails[j];
        }
      }
    }
  }

  /** `você (deve|precisa|pode) (comprar|vender|investir)`, its alternatives
      in the order the regular expression tries them. */
  const FirstPattern: seq<string> :=
    Expand("você", Expand("deve", Verbs) + Expand("precisa", Verbs) + Expand("pode", Verbs))

  /** `(é|seria) (recomendável|aconselhável) (comprar|vender|investir)`. */
  const Qualified: seq<string> := Expand("recomendável", Verbs) + Expand("aconselhável", Verbs)
  const SecondPattern: seq<string> := Expand("é", Qualified) + Expand("seria", Qualified)

  /** `(sugiro|recomendo|aconselho) (que você )?(comprar|vender|investir)`:
      for each head the optional group is tried first. */
  const Addressed: seq<string> := Expand("que você", Verbs) + Verbs
  const ThirdPattern: seq<string> :=
    Expand("sugiro", Addressed) + Expand("recomendo", Addressed) + Expand("aconselho", Addressed)

  const RecommendationPatterns: seq<seq<string>> := [FirstPattern, SecondPattern, ThirdPattern]

  /** With at most three heads the expansion is the heads' expansions in
      order. */
  lemma HeadsExpansion(heads: seq<string>, tails: seq<string>)
    requires 1 <= |heads| <= 3
    ensures |heads| == 1 ==> Alternatives(heads, tails) == Expand(heads[0], tails)
    ensures |heads| == 2 ==> Alternatives(heads, tails) == Expand(heads[0], tails) + Expand(heads[1], tails)
    ensures |heads| == 3 ==>
      Alternatives(heads, tails) == Expand(heads[0], tails) + Expand(heads[1], tails) + Expand(heads[2], tails)
  {
    var rest := heads[1..];
    if |heads| >= 2 {
      var rest2 := rest[1..];
      if |heads| == 3 {
        assert rest2[1..] == [];
        assert Alternatives(rest2, tails) == Expand(heads[2], tails);
      } else {
        assert rest2 == [];
      }
    } else {
      assert rest == [];
    }
  }

  /** Each pattern list is the expansion of its regular expression. */
  lemma PatternsAreExpansions()
    ensures FirstPattern == Alternatives(["você"], Alternatives(["deve", "precisa", "pode"], Verbs))
    ensures SecondPattern == Alternatives(["é", "seria"], Alternatives(["recomendável", "aconselhável"], Verbs))
    ensures ThirdPattern ==
      Alternatives(["sugiro", "recomendo", "aconselho"], Alternatives(["que você"], Verbs) + Verbs)
  {
    HeadsExpansion(["deve", "precisa", "pode"], Verbs);
    HeadsExpansion(["você"], Alternatives(["deve", "precisa", "pode"], Verbs));
    HeadsExpansion(["recomendável", "aconselhável"], Verbs);
    HeadsExpansion(["é", "seria"], Qualified);
    HeadsExpansion(["que você"], Verbs);
    HeadsExpansion(["sugiro", "recomendo", "aconselho"], Addressed);
  }

  /** The two passes in order: each forbidden word replaced by the removal
      mark, then each pattern replaced by the context mark. */
  const SafetyRules: seq<Rule> := [
      Rule([ForbiddenWords[0]], RemovedMark),
      Rule([ForbiddenWords[1]], RemovedMark),
      Rule([ForbiddenWords[2]], RemovedMark),
      Rule([ForbiddenWords[3]], RemovedMark),
      Rule([ForbiddenWords[4]], RemovedMark),
      Rule([ForbiddenWords[5]], RemovedMark),
      Rule([ForbiddenWords[6]], RemovedMark),
      Rule([ForbiddenWords[7]], RemovedMark),
      Rule([ForbiddenWords[8]], RemovedMark),
      Rule([ForbiddenWords[9]], RemovedMark),
      Rule([ForbiddenWords[10]], RemovedMark),
      Rule([ForbiddenWords[11]], RemovedMark),
      Rule([ForbiddenWords[12]], RemovedMark),
      Rule([ForbiddenWords[13]], RemovedMark),
      Rule([ForbiddenWords[14]], RemovedMark),
      Rule([ForbiddenWords[15]], RemovedMark),
      Rule([ForbiddenWords[16]], RemovedMark),
      Rule([ForbiddenWords[17]], RemovedMark),
      Rule([ForbiddenWords[18]], RemovedMark),
      Rule(FirstPattern, ContextMark),
      Rule(SecondPattern, ContextMark),
      Rule(ThirdPattern, ContextMark)
    ]

  /** Lower-case and free of brackets. */
  predicate Plain(s: string) {
    forall k :: 0 <= k < |s| ==> Lower(s[k]) == s[k] && s[k] != '[' && s[k] != ']'
  }

  /** Character groups, one of which is found in every phrase screened for. */
  const Grams: seq<string> := ["mpr", "ve", "nv", "b", "w", "y"]

  predicate Clean(s: string) {
    forall g :: g in Grams ==> !OccursIgnoringCase(s, g)
  }

  /** The phrase can be searched for in a text without being confused with
      a mark or with the fallback insight. */
  predicate Screened(q: string) {
    && |q| > 0 && Plain(q) && 'a' <= q[|q| - 1] <= 'z'
    && !OccursIgnoringCase(RemovedMark, q) && !OccursIgnoringCase(ContextMark, q)
    && !OccursIgnoringCase(FallbackInsight, q)
  }

  lemma LacksGrams(s: string)
    requires forall k :: 0 <= k < |s| - 2 ==>
      !(Lower(s[k]) == 'm' && Lower(s[k + 1]) == 'p' && Lower(s[k + 2]) == 'r')
    requires forall k :: 0 <= k < |s| - 1 ==> !(Lower(s[k]) == 'v' && Lower(s[k + 1]) == 'e')
    requires forall k :: 0 <= k < |s| - 1 ==> !(Lower(s[k]) == 'n' && Lower(s[k + 1]) == 'v')
    requires forall k :: 0 <= k < |s| ==> Lower(s[k]) != 'b' && Lower(s[k]) != 'w' && Lower(s[k]) != 'y'
    ensures Clean(s)
  {
    LacksTriple(s, 'm', 'p', 'r');
    LacksPair(s, 'v', 'e');
    LacksPair(s, 'n', 'v');
    LacksChar(s, 'b');
    LacksChar(s, 'w');
    LacksChar(s, 'y');
    assert ['m', 'p', 'r'] == "mpr" && ['v', 'e'] == "ve" && ['n', 'v'] == "nv";
  }

  /** Two clean texts joined after a blank stay clean: no group holds a blank. */
  lemma JoinClean(a: string, b: string)
    requires |a| > 0 && a[|a| - 1] == ' ' && |b| > 0
    requires Clean(a) && Clean(b)
    ensures Clean(a + b)
  {
    forall g | g in Grams ensures !OccursIgnoringCase(a + b, g) {
      ConcatAbsent(a, b, g);
    }
  }

  lemma FallbackPiece0Clean(s: string)
    requires s == "O mercado apresenta "
    ensures Clean(s)
  {
    LacksGrams(s);
  }

  lemma FallbackPiece1Clean(s: string)
    requires s == "condições que "
    ensures Clean(s)
  {
    LacksGrams(s);
  }

  lemma FallbackPiece2Clean(s: string)
    requires s == "requerem "
    ensures Clean(s)
  {
    LacksGrams(s);
  }

  lemma FallbackPiece3Clean(s: string)
    requires s == "monitoramento "
    ensures Clean(s)
  {
    LacksGrams(s);
  }

  lemma FallbackPiece4Clean(s: string)
    requires s == "contínuo. "
    ensures Clean(s)
  {
    LacksGrams(s);
  }

  lemma FallbackPiece5Clean(s: string)
    requires s == "Recomenda-se "
    ensures Clean(s)
  {
    LacksGrams(s);
  }

  lemma FallbackPiece6Clean(s: string)
    requires s == "acompanhar "
    ensures Clean(s)
  {
    LacksGrams(s);
  }

  lemma FallbackPiece7Clean(s: string)
    requires s == "indicadores "
    ensures Clean(s)
  {
    LacksGrams(s);
  }

  lemma FallbackPiece8Clean(s: string)
    requires s == "técnicos e notícias "
    ensures Clean(s)
  {
    LacksGrams(s);
  }

  lemma FallbackPiece9Clean(s: string)
    requires s == "relevantes para "
    ensures Clean(s)
  {
    LacksGrams(s);
  }

  lemma FallbackPiece10Clean(s: string)
    requires s == "entender melhor o "
    ensures Clean(s)
  {
    LacksGrams(s);
  }

  lemma FallbackPiece11Clean(s: string)
    requires s == "contexto atual."
    ensures Clean(s)
  {
    LacksGrams(s);
  }

  lemma FallbackClean()
    ensures Clean(FallbackInsight)
  {
    var text := "O mercado apresenta ";
    FallbackPiece0Clean(text);
    var p1 := "condições que ";
    FallbackPiece1Clean(p1);
    JoinClean(text, p1);
    text := text + p1;
    var p2 := "requerem ";
    FallbackPiece2Clean(p2);
    JoinClean(text, p2);
    text := text + p2;
    var p3 := "monitoramento ";
    FallbackPiece3Clean(p3);
    JoinClean(text, p3);
    text := text + p3;
    var p4 := "contínuo. ";
    FallbackPiece4Clean(p4);
    JoinClean(text, p4);
    text := text + p4;
    var p5 := "Recomenda-se ";
    FallbackPiece5Clean(p5);
    JoinClean(text, p5);
    text := text + p5;
    var p6 := "acompanhar ";
    FallbackPiece6Clean(p6);
    JoinClean(text, p6);
    text := text + p6;
    var p7 := "indicadores ";
    FallbackPiece7Clean(p7);
    JoinClean(text, p7);
    text := text + p7;
    var p8 := "técnicos e notícias ";
    FallbackPiece8Clean(p8);
    JoinClean(text, p8);
    text := text + p8;
    var p9 := "relevantes para ";
    FallbackPiece9Clean(p9);
    JoinClean(text, p9);
    text := text + p9;
    var p10 := "entender melhor o ";
    FallbackPiece10Clean(p10);
    JoinClean(text, p10);
    text := text + p10;
    var p11 := "contexto atual.";
    FallbackPiece11Clean(p11);
    JoinClean(text, p11);
    text := text + p11;
    assert text == FallbackInsight;
  }

  /** The marks share their opening word; each half is checked on its own. */
  lemma MarkHeadClean(s: string)
    requires s == "[informação "
    ensures Clean(s)
  {
    LacksGrams(s);
  }

  lemma MarkTailClean(s: string)
    requires s == "removida]" || s == "contextual]"
    ensures Clean(s)
  {
    LacksGrams(s);
  }

  lemma RemovedMarkClean(s: string)
    requires s == RemovedMark
    ensures Clean(s)
  {
    MarkHeadClean("[informação ");
    MarkTailClean("removida]");
    assert s == "[informação " + "removida]";
    JoinClean("[informação ", "removida]");
  }

  lemma ContextMarkClean(s: string)
    requires s == ContextMark
    ensures Clean(s)
  {
    MarkHeadClean("[informação ");
    MarkTailClean("contextual]");
    assert s == "[informação " + "contextual]";
    JoinClean("[informação ", "contextual]");
  }

  lemma PlainJoin(a: string, b: string)
    requires Plain(a) && Plain(b)
    ensures Plain(a + b)
  {
    forall k | 0 <= k < |a + b| ensures Lower((a + b)[k]) == (a + b)[k] && (a + b)[k] != '[' && (a + b)[k] != ']' {
      if k < |a| {
        assert (a + b)[k] == a[k];
      } else {
        assert (a + b)[k] == b[k - |a|];
      }
    }
  }

  /** A plain phrase ending in a letter and holding one of the groups is
      screened, since no group occurs in the marks or in the fallback. */
  lemma ScreenedByGram(q: string, a: string, g: string, b: string)
    requires g in Grams && q == a + g + b
    requires |q| > 0 && Plain(q) && 'a' <= q[|q| - 1] <= 'z'
    ensures Screened(q)
  {
    RemovedMarkClean(RemovedMark);
    ContextMarkClean(ContextMark);
    FallbackClean();
    ExcludedByPart(RemovedMark, a, g, b);
    ExcludedByPart(ContextMark, a, g, b);
    ExcludedByPart(FallbackInsight, a, g, b);
  }

  /** Putting a plain head and a blank before a screened phrase keeps it
      screened: whatever contains the phrase cannot occur where it cannot. */
  lemma ScreenedExtends(h: string, t: string)
    requires Plain(h) && Screened(t)
    ensures Screened(h + " " + t)
  {
    PlainJoin(h, " ");
    PlainJoin(h + " ", t);
    assert h + " " + t == (h + " ") + t + "";
    ExcludedByPart(RemovedMark, h + " ", t, "");
    ExcludedByPart(ContextMark, h + " ", t, "");
    ExcludedByPart(FallbackInsight, h + " ", t, "");
  }

  lemma ForbiddenScreened0To2(i: nat)
    requires 0 <= i < 3
    ensures Screened(ForbiddenWords[i])
  {
    var q := ForbiddenWords[i];
    if i == 0 {
      ScreenedByGram(q, "co", "mpr", "e agora");
    } else if i == 1 {
      ScreenedByGram(q, "", "ve", "nda agora");
    } else {
      ScreenedByGram(q, "co", "mpr", "e");
    }
  }

  lemma ForbiddenScreened3To5(i: nat)
    requires 3 <= i < 6
    ensures Screened(ForbiddenWords[i])
  {
    var q := ForbiddenWords[i];
    if i == 3 {
      ScreenedByGram(q, "", "ve", "nda");
    } else if i == 4 {
      ScreenedByGram(q, "i", "nv", "ista");
    } else {
      ScreenedByGram(q, "não i", "nv", "ista");
    }
  }

  lemma ForbiddenScreened6To8(i: nat)
    requires 6 <= i < 9
    ensures Screened(ForbiddenWords[i])
  {
    var q := ForbiddenWords[i];
    if i == 6 {
      ScreenedByGram(q, "é o momento de co", "mpr", "ar");
    } else if i == 7 {
      ScreenedByGram(q, "é o momento de ", "ve", "nder");
    } else {
      ScreenedByGram(q, "deve co", "mpr", "ar");
    }
  }

  lemma ForbiddenScreened9To11(i: nat)
    requires 9 <= i < 12
    ensures Screened(ForbiddenWords[i])
  {
    var q := ForbiddenWords[i];
    if i == 9 {
      ScreenedByGram(q, "de", "ve", " vender");
    } else if i == 10 {
      ScreenedByGram(q, "recomendo co", "mpr", "ar");
    } else {
      ScreenedByGram(q, "recomendo ", "ve", "nder");
    }
  }

  lemma ForbiddenScreened12To14(i: nat)
    requires 12 <= i < 15
    ensures Screened(ForbiddenWords[i])
  {
    var q := ForbiddenWords[i];
    if i == 12 {
      ScreenedByGram(q, "sugiro co", "mpr", "ar");
    } else if i == 13 {
      ScreenedByGram(q, "sugiro ", "ve", "nder");
    } else {
      ScreenedByGram(q, "", "b", "uy now");
    }
  }

  lemma ForbiddenScreened15To18(i: nat)
    requires 15 <= i < 19
    ensures Screened(ForbiddenWords[i])
  {
    var q := ForbiddenWords[i];
    if i == 15 {
      ScreenedByGram(q, "sell no", "w", "");
    } else if i == 16 {
      ScreenedByGram(q, "you should ", "b", "uy");
    } else if i == 17 {
      ScreenedByGram(q, "", "y", "ou should sell");
    } else {
      ScreenedByGram(q, "in", "ve", "st now");
    }
  }

  /** Every forbidden word is screened. */
  lemma ForbiddenScreened(i: nat)
    requires i < |ForbiddenWords|
    ensures Screened(ForbiddenWords[i])
  {
    if i < 3 {
      ForbiddenScreened0To2(i);
    } else if i < 6 {
      ForbiddenScreened3To5(i);
    } else if i < 9 {
      ForbiddenScreened6To8(i);
    } else if i < 12 {
      ForbiddenScreened9To11(i);
    } else if i < 15 {
      ForbiddenScreened12To14(i);
    } else {
      ForbiddenScreened15To18(i);
    }
  }

  lemma VerbsScreened()
    ensures forall j :: 0 <= j < |Verbs| ==> Screened(Verbs[j])
  {
    ScreenedByGram("comprar", "co", "mpr", "ar");
    ScreenedByGram("vender", "", "ve", "nder");
    ScreenedByGram("investir", "in", "ve", "stir");
  }

  /** The expansion of a pattern with plain heads and screened tails holds
      screened phrases only. */
  lemma AlternativesScreened(heads: seq<string>, tails: seq<string>)
    requires forall i :: 0 <= i < |heads| ==> Plain(heads[i])
    requires forall j :: 0 <= j < |tails| ==> Screened(tails[j])
    ensures forall q :: q in Alternatives(heads, tails) ==> Screened(q)
  {
    forall q | q in Alternatives(heads, tails) ensures Screened(q) {
      AlternativesMembers(heads, tails, q);
      var i, j :| 0 <= i < |heads| && 0 <= j < |tails| && q == heads[i] + " " + tails[j];
      ScreenedExtends(heads[i], tails[j]);
    }
  }

  lemma FirstPatternScreened()
    ensures forall q :: q in FirstPattern ==> Screened(q)
  {
    PatternsAreExpansions();
    VerbsScreened();
    AlternativesScreened(["deve", "precisa", "pode"], Verbs);
    AlternativesScreened(["você"], Alternatives(["deve", "precisa", "pode"], Verbs));
  }

  lemma SecondPatternScreened()
    ensures forall q :: q in SecondPattern ==> Screened(q)
  {
    PatternsAreExpansions();
    VerbsScreened();
    AlternativesScreened(["recomendável", "aconselhável"], Verbs);
    AlternativesScreened(["é", "seria"], Alternatives(["recomendável", "aconselhável"], Verbs));
  }

  lemma ThirdPatternScreened()
    ensures forall q :: q in ThirdPattern ==> Screened(q)
  {
    PatternsAreExpansions();
    VerbsScreened();
    AlternativesScreened(["que você"], Verbs);
    var tails := Alternatives(["que você"], Verbs) + Verbs;
    assert forall j :: 0 <= j < |tails| ==> Screened(tails[j]) by {
      forall j | 0 <= j < |tails| ensures Screened(tails[j]) {
        if j < |Alternatives(["que você"], Verbs)| {
          assert tails[j] in Alternatives(["que você"], Verbs);
        } else {
          assert tails[j] == Verbs[j - |Alternatives(["que você"], Verbs)|];
        }
      }
    }
    AlternativesScreened(["sugiro", "recomendo", "aconselho"], tails);
  }

  /** A screened phrase is kept apart from both marks. */
  lemma ScreenedSeparated(q: string)
    requires Screened(q)
    ensures Separated(q, RemovedMark) && Separated(q, ContextMark)
  {
    assert RemovedMark[0] == '[' && RemovedMark[|RemovedMark| - 1] == ']';
    assert ContextMark[0] == '[' && ContextMark[|ContextMark| - 1] == ']';
  }

  /** The rule list holds one removal rule per forbidden word, in list
      order, followed by one context rule per pattern. */
  lemma SafetyRulesLayout()
    ensures |SafetyRules| == |ForbiddenWords| + 3
    ensures forall i :: 0 <= i < |ForbiddenWords| ==> SafetyRules[i] == Rule([ForbiddenWords[i]], RemovedMark)
    ensures SafetyRules[19] == Rule(FirstPattern, ContextMark)
    ensures SafetyRules[20] == Rule(SecondPattern, ContextMark)
    ensures SafetyRules[21] == Rule(ThirdPattern, ContextMark)
  {
  }

  /** Every alternative of every safety rule is screened, so the rules
      screen as the general results about rules require. */
  lemma SafetyRulesScreened()
    ensures forall i, j :: 0 <= i < |SafetyRules| && 0 <= j < |SafetyRules[i].alternatives| ==>
      Screened(SafetyRules[i].alternatives[j])
    ensures Screens(SafetyRules)
    ensures forall i :: 0 <= i < |SafetyRules| ==>
      SafetyRules[i].mark == RemovedMark || SafetyRules[i].mark == ContextMark
  {
    SafetyRulesLayout();
    FirstPatternScreened();
    SecondPatternScreened();
    ThirdPatternScreened();
    forall i, j | 0 <= i < |SafetyRules| && 0 <= j < |SafetyRules[i].alternatives|
      ensures Screened(SafetyRules[i].alternatives[j])
    {
      if i < |ForbiddenWords| {
        ForbiddenScreened(i);
      } else {
        assert SafetyRules[i].alternatives[j] in SafetyRules[i].alternatives;
      }
    }
    forall i, j | 0 <= i < |SafetyRules| && 0 <= j < |SafetyRules[i].alternatives|
      ensures ApartFromMarks(SafetyRules[i].alternatives[j], SafetyRules)
    {
      ScreenedSeparated(SafetyRules[i].alternatives[j]);
    }
  }
}
