/** The screening passes of the insight filter, in general form: an ordered
    list of rules, each a set of alternatives and the mark that replaces
    them. A rule is applied only when one of its alternatives occurs in a
    lower-cased copy of the text taken before any rule ran. */
module Rules {
  import opened Text
  import opened Substitution

  /** One entry of the forbidden-word list (a single alternative) or one
      recommendation pattern (its alternatives in the order the regular
      expression tries them), with the text that replaces a match. */
  datatype Rule = Rule(alternatives: seq<string>, mark: string)

  predicate AllNonEmpty(rules: seq<Rule>) {
    forall i :: 0 <= i < |rules| ==> NonEmpty(rules[i].alternatives)
  }

  /** The guard of one rule: some alternative occurs in the lower-cased
      copy, compared exactly. */
  predicate Fires(lowered: string, rule: Rule) {
    exists j :: 0 <= j < |rule.alternatives| && Occurs(lowered, rule.alternatives[j])
  }

  /** The rules in order, each substituting its alternatives by its mark
      when its guard holds. */
  function ApplyRules(text: string, lowered: string, rules: seq<Rule>): string
    requires AllNonEmpty(rules)
    decreases |rules|
  {
    if |rules| == 0 then text
    else
      var prior := ApplyRules(text, lowered, rules[..|rules| - 1]);
      var rule := rules[|rules| - 1];
      if Fires(lowered, rule) then Substitute(prior, rule.alternatives, rule.mark) else prior
  }

  /** A phrase kept apart from every mark the rules write. */
  predicate ApartFromMarks(q: string, rules: seq<Rule>) {
    forall i :: 0 <= i < |rules| ==> Separated(q, rules[i].mark)
  }

  /** Every alternative is non-empty, lower-case, does not end in a period
      and is kept apart from every mark. */
  predicate Screens(rules: seq<Rule>) {
    && AllNonEmpty(rules)
    && forall i, j :: 0 <= i < |rules| && 0 <= j < |rules[i].alternatives| ==>
         var q := rules[i].alternatives[j];
         IsLowerText(q) && q[|q| - 1] != '.' && ApartFromMarks(q, rules)
  }

  /** The guard sees every alternative that occurs in the text. */
  predicate Sees(text: string, lowered: string, rules: seq<Rule>) {
    forall i, j :: 0 <= i < |rules| && 0 <= j < |rules[i].alternatives| ==>
      OccursIgnoringCase(text, rules[i].alternatives[j]) ==> Occurs(lowered, rules[i].alternatives[j])
  }

  /** The rules never create an occurrence of a phrase kept apart from
      their marks. */
  lemma {:induction false} ApplyRulesNoNew(text: string, lowered: string, rules: seq<Rule>, q: string)
    requires AllNonEmpty(rules) && ApartFromMarks(q, rules)
    ensures OccursIgnoringCase(ApplyRules(text, lowered, rules), q) ==> OccursIgnoringCase(text, q)
    decreases |rules|
  {
    if |rules| > 0 {
      var init := rules[..|rules| - 1];
      var rule := rules[|rules| - 1];
      ApplyRulesNoNew(text, lowered, init, q);
      var prior := ApplyRules(text, lowered, init);
      if Fires(lowered, rule) {
        NoNewOccurrence(prior, rule.alternatives, rule.mark, q);
      }
    }
  }

  /** After all rules ran, no alternative of any rule occurs in the text,
      provided the guard saw everything that occurred in the original. */
  lemma {:induction false} ApplyRulesRemoves(text: string, lowered: string, rules: seq<Rule>, i: nat, j: nat)
    requires Screens(rules) && Sees(text, lowered, rules)
    requires i < |rules| && j < |rules[i].alternatives|
    ensures !OccursIgnoringCase(ApplyRules(text, lowered, rules), rules[i].alternatives[j])
    decreases |rules|
  {
    var init := rules[..|rules| - 1];
    var rule := rules[|rules| - 1];
    var prior := ApplyRules(text, lowered, init);
    var q := rules[i].alternatives[j];
    assert ApartFromMarks(q, rules);
    assert ApartFromMarks(q, init) by {
      forall m | 0 <= m < |init| ensures Separated(q, init[m].mark) {
        assert init[m] == rules[m];
      }
    }
    if i < |rules| - 1 {
      assert Screens(init) by {
        forall m, n | 0 <= m < |init| && 0 <= n < |init[m].alternatives|
          ensures ApartFromMarks(init[m].alternatives[n], init)
        {
          assert init[m] == rules[m];
          assert ApartFromMarks(rules[m].alternatives[n], rules);
        }
      }
      assert init[i] == rules[i];
      ApplyRulesRemoves(text, lowered, init, i, j);
      if Fires(lowered, rule) {
        assert Separated(q, rule.mark);
        NoNewOccurrence(prior, rule.alternatives, rule.mark, q);
      }
    } else if Fires(lowered, rule) {
      assert Separated(q, rule.mark);
      SubstituteRemoves(prior, rule.alternatives, rule.mark, j);
    } else {
      assert !Occurs(lowered, q);
      ApplyRulesNoNew(text, lowered, init, q);
    }
  }

  /** When no guard holds, the text passes through unchanged. */
  lemma {:induction false} ApplyRulesIdle(text: string, lowered: string, rules: seq<Rule>)
    requires AllNonEmpty(rules)
    requires forall i :: 0 <= i < |rules| ==> !Fires(lowered, rules[i])
    ensures ApplyRules(text, lowered, rules) == text
    decreases |rules|
  {
    if |rules| > 0 {
      var init := rules[..|rules| - 1];
      assert forall i :: 0 <= i < |init| ==> init[i] == rules[i];
      ApplyRulesIdle(text, lowered, init);
    }
  }

  /** A text with no surrounding white space and at least `floor`
      characters keeps both properties when every mark has them too. */
  lemma {:induction false} ApplyRulesKeepsShape(text: string, lowered: string, rules: seq<Rule>, floor: nat)
    requires AllNonEmpty(rules) && Trimmed(text) && |text| >= floor
    requires forall i :: 0 <= i < |rules| ==> Trimmed(rules[i].mark) && |rules[i].mark| >= floor
    ensures var r := ApplyRules(text, lowered, rules); Trimmed(r) && |r| >= floor
    decreases |rules|
  {
    if |rules| > 0 {
      var init := rules[..|rules| - 1];
      var rule := rules[|rules| - 1];
      assert forall i :: 0 <= i < |init| ==> init[i] == rules[i];
      ApplyRulesKeepsShape(text, lowered, init, floor);
      var prior := ApplyRules(text, lowered, init);
      if Fires(lowered, rule) {
        SubstituteLength(prior, rule.alternatives, rule.mark);
        SubstituteEnds(prior, rule.alternatives, rule.mark);
      }
    }
  }
}
