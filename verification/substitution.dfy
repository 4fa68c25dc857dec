/** Case-insensitive replacement of a list of literal phrases, as a regular
    expression made of alternatives replaces them: scanning left to right,
    at each position the first phrase in list order that matches is
    replaced and the scan resumes after it; otherwise the character is kept. */
module Substitution {
  import opened Wrappers
  import opened Text

  predicate NonEmpty(phrases: seq<string>) {
    forall i :: 0 <= i < |phrases| ==> |phrases[i]| > 0
  }

  /** The first phrase, in list order from index `from`, that matches at
      the start of t. */
  function FirstMatchFrom(t: string, phrases: seq<string>, from: nat): (r: Option<nat>)
    requires from <= |phrases|
    ensures r.Some? ==>
      && from <= r.value < |phrases| && MatchesAt(t, 0, phrases[r.value])
      && (forall i :: from <= i < r.value ==> !MatchesAt(t, 0, phrases[i]))
    ensures r.None? ==> forall i :: from <= i < |phrases| ==> !MatchesAt(t, 0, phrases[i])
    decreases |phrases| - from
  {
    if from == |phrases| then None
    else if MatchesAt(t, 0, phrases[from]) then Some(from)
    else FirstMatchFrom(t, phrases, from + 1)
  }

  function FirstMatch(t: string, phrases: seq<string>): Option<nat> {
    FirstMatchFrom(t, phrases, 0)
  }

  /** re.sub over the alternatives `phrases` with IGNORECASE. */
  function Substitute(t: string, phrases: seq<string>, repl: string): string
    requires NonEmpty(phrases)
    decreases |t|
  {
    if |t| == 0 then []
    else match FirstMatch(t, phrases)
      case Some(i) => repl + Substitute(t[|phrases[i]|..], phrases, repl)
      case None => [t[0]] + Substitute(t[1..], phrases, repl)
  }

  /** No phrase of the list occurs anywhere in t. */
  predicate NoneOccur(t: string, phrases: seq<string>) {
    forall i :: 0 <= i < |phrases| ==> !OccursIgnoringCase(t, phrases[i])
  }

  /** A text with no occurrence of any phrase is left unchanged. */
  lemma {:induction false} SubstituteUnchanged(t: string, phrases: seq<string>, repl: string)
    requires NonEmpty(phrases)
    requires NoneOccur(t, phrases)
    ensures Substitute(t, phrases, repl) == t
    decreases |t|
  {
    if |t| > 0 {
      forall i | 0 <= i < |phrases| ensures !MatchesAt(t, 0, phrases[i]) {
        assert !OccursIgnoringCase(t, phrases[i]);
      }
      assert FirstMatch(t, phrases).None?;
      forall i | 0 <= i < |phrases| ensures !OccursIgnoringCase(t[1..], phrases[i]) {
        forall k | 0 <= k <= |t[1..]| - |phrases[i]| ensures !MatchesAt(t[1..], k, phrases[i]) {
          MatchInSuffix(t, 1, k, phrases[i]);
        }
      }
      SubstituteUnchanged(t[1..], phrases, repl);
    }
  }

  /** Either nothing was replaced or the result holds a whole replacement,
      so it is at least as long as the replacement text. */
  lemma {:induction false} SubstituteLength(t: string, phrases: seq<string>, repl: string)
    requires NonEmpty(phrases)
    ensures var r := Substitute(t, phrases, repl); r == t || |r| >= |repl|
    decreases |t|
  {
    if |t| > 0 {
      match FirstMatch(t, phrases)
      case Some(i) =>
      case None =>
        SubstituteLength(t[1..], phrases, repl);
        assert t == [t[0]] + t[1..];
    }
  }

  /** The first character of the result is the text's own or the
      replacement's first; the last is the text's own, or the replacement's
      last when some phrase ending in a character equal (ignoring case) to
      the text's last character was replaced there. */
  lemma {:induction false} SubstituteEnds(t: string, phrases: seq<string>, repl: string)
    requires NonEmpty(phrases) && |repl| > 0 && |t| > 0
    ensures var r := Substitute(t, phrases, repl);
      && |r| > 0
      && (r[0] == t[0] || r[0] == repl[0])
      && (r[|r| - 1] == t[|t| - 1]
          || (r[|r| - 1] == repl[|repl| - 1]
              && exists i :: 0 <= i < |phrases| && Lower(phrases[i][|phrases[i]| - 1]) == Lower(t[|t| - 1])))
    decreases |t|
  {
    var r := Substitute(t, phrases, repl);
    match FirstMatch(t, phrases)
    case Some(i) =>
      var p := phrases[i];
      var rest := t[|p|..];
      assert r == repl + Substitute(rest, phrases, repl);
      if |rest| == 0 {
        assert r == repl;
        assert Lower(t[|p| - 1]) == Lower(p[|p| - 1]);
      } else {
        SubstituteEnds(rest, phrases, repl);
      }
    case None =>
      if |t| > 1 {
        SubstituteEnds(t[1..], phrases, repl);
      }
  }

  /** Every prefix of the result is the same prefix of the text, or holds
      the first character of a replacement. */
  lemma {:induction false} CopiedPrefix(t: string, phrases: seq<string>, repl: string, n: nat)
    requires NonEmpty(phrases) && |repl| > 0
    requires n <= |Substitute(t, phrases, repl)|
    ensures var r := Substitute(t, phrases, repl);
      (n <= |t| && r[..n] == t[..n]) || (exists m :: 0 <= m < n && r[m] == repl[0])
    decreases |t|
  {
    var r := Substitute(t, phrases, repl);
    if |t| > 0 && n > 0 {
      match FirstMatch(t, phrases)
      case Some(i) =>
        assert r[0] == repl[0];
      case None =>
        var s := Substitute(t[1..], phrases, repl);
        assert r == [t[0]] + s;
        CopiedPrefix(t[1..], phrases, repl, n - 1);
        if n - 1 <= |t| - 1 && s[..n - 1] == t[1..][..n - 1] {
          assert r[..n] == [t[0]] + s[..n - 1];
          assert t[..n] == [t[0]] + t[1..][..n - 1];
        } else {
          var m :| 0 <= m < n - 1 && s[m] == repl[0];
          assert r[m + 1] == repl[0];
        }
    }
  }

  /** A phrase is kept apart from a replacement text when it is non-empty,
      matches neither bracketing character of the replacement and does not
      occur inside the replacement. */
  predicate Separated(q: string, repl: string) {
    && |q| > 0 && |repl| > 0
    && (forall j :: 0 <= j < |q| ==>
          Lower(q[j]) != Lower(repl[0]) && Lower(q[j]) != Lower(repl[|repl| - 1]))
    && !OccursIgnoringCase(repl, q)
  }

  /** A separated phrase cannot match across or inside a leading
      replacement: any match lies in what follows it. */
  lemma MatchAfterReplacement(repl: string, s: string, m: int, q: string)
    requires Separated(q, repl) && MatchesAt(repl + s, m, q)
    ensures m >= |repl| && MatchesAt(s, m - |repl|, q)
  {
    var r := repl + s;
    forall m0 | 0 <= m0 < |repl| && m0 + |q| <= |r| ensures !MatchesAt(r, m0, q) {
      if m0 + |q| <= |repl| {
        assert !MatchesAt(repl, m0, q);
        var j :| 0 <= j < |q| && Lower(repl[m0 + j]) != Lower(q[j]);
        assert r[m0 + j] == repl[m0 + j];
      } else {
        var j := |repl| - 1 - m0;
        assert r[m0 + j] == repl[|repl| - 1];
        assert Lower(r[m0 + j]) != Lower(q[j]);
      }
    }
    MatchInSuffix(r, |repl|, m - |repl|, q);
    assert r[|repl|..] == s;
  }

  /** A separated phrase matching at the start of the result, where the
      text's first character was kept, matches the text itself there. */
  lemma MatchAtKeptStart(t: string, phrases: seq<string>, repl: string, q: string)
    requires NonEmpty(phrases) && Separated(q, repl) && |t| > 0
    requires MatchesAt([t[0]] + Substitute(t[1..], phrases, repl), 0, q)
    ensures MatchesAt(t, 0, q)
  {
    var s := Substitute(t[1..], phrases, repl);
    var r := [t[0]] + s;
    forall m' | 0 <= m' < |q| - 1 ensures s[m'] != repl[0] {
      assert r[m' + 1] == s[m'];
      assert Lower(r[m' + 1]) == Lower(q[m' + 1]);
    }
    CopiedPrefix(t[1..], phrases, repl, |q| - 1);
    assert s[..|q| - 1] == t[1..][..|q| - 1];
    forall j | 0 <= j < |q| ensures Lower(t[j]) == Lower(q[j]) {
      if j > 0 {
        assert r[j] == s[j - 1] == t[j];
      }
    }
  }

  /** The step of NoNewOccurrence where a phrase was replaced at the start
      of the text. */
  lemma NoNewAfterReplaced(t: string, phrases: seq<string>, repl: string, q: string, i: nat)
    requires NonEmpty(phrases) && Separated(q, repl) && |t| > 0
    requires FirstMatch(t, phrases) == Some(i)
    requires var rest := t[|phrases[i]|..];
      OccursIgnoringCase(Substitute(rest, phrases, repl), q) ==> OccursIgnoringCase(rest, q)
    ensures OccursIgnoringCase(Substitute(t, phrases, repl), q) ==> OccursIgnoringCase(t, q)
  {
    var p := phrases[i];
    var rest := t[|p|..];
    var s := Substitute(rest, phrases, repl);
    var r := Substitute(t, phrases, repl);
    assert r == repl + s;
    if OccursIgnoringCase(r, q) {
      var m :| 0 <= m <= |r| - |q| && MatchesAt(r, m, q);
      MatchAfterReplacement(repl, s, m, q);
      assert OccursIgnoringCase(s, q);
      var k :| 0 <= k <= |rest| - |q| && MatchesAt(rest, k, q);
      MatchInSuffix(t, |p|, k, q);
    }
  }

  /** A match after a kept first character is a match in what follows it. */
  lemma MatchAfterKept(c: char, s: string, m: int, q: string)
    requires m >= 1 && MatchesAt([c] + s, m, q)
    ensures OccursIgnoringCase(s, q)
  {
    MatchInSuffix([c] + s, 1, m - 1, q);
    assert ([c] + s)[1..] == s;
  }

  /** Where no phrase matches at the start, the first character is kept. */
  lemma SubstituteKeeps(t: string, phrases: seq<string>, repl: string)
    requires NonEmpty(phrases) && |t| > 0
    requires FirstMatch(t, phrases).None?
    ensures Substitute(t, phrases, repl) == [t[0]] + Substitute(t[1..], phrases, repl)
  {
  }

  /** The step of NoNewOccurrence where the first character was kept. */
  lemma NoNewAfterKept(t: string, phrases: seq<string>, repl: string, q: string)
    requires NonEmpty(phrases) && Separated(q, repl) && |t| > 0
    requires FirstMatch(t, phrases).None?
    requires OccursIgnoringCase(t[1..], q) ==> OccursIgnoringCase(t, q)
    requires OccursIgnoringCase(Substitute(t[1..], phrases, repl), q) ==> OccursIgnoringCase(t[1..], q)
    ensures OccursIgnoringCase(Substitute(t, phrases, repl), q) ==> OccursIgnoringCase(t, q)
  {
    SubstituteKeeps(t, phrases, repl);
    var s := Substitute(t[1..], phrases, repl);
    KeptOccurs(t[0], s, q);
    if MatchesAt([t[0]] + s, 0, q) {
      KeptStartOccurs(t, phrases, repl, q);
    }
  }

  /** An occurrence after a kept character is at its start or in what
      follows it. */
  lemma KeptOccurs(c: char, s: string, q: string)
    ensures OccursIgnoringCase([c] + s, q) ==> MatchesAt([c] + s, 0, q) || OccursIgnoringCase(s, q)
  {
    if OccursIgnoringCase([c] + s, q) {
      var m :| 0 <= m <= |[c] + s| - |q| && MatchesAt([c] + s, m, q);
      if m >= 1 {
        MatchAfterKept(c, s, m, q);
      }
    }
  }

  lemma KeptStartOccurs(t: string, phrases: seq<string>, repl: string, q: string)
    requires NonEmpty(phrases) && Separated(q, repl) && |t| > 0
    requires FirstMatch(t, phrases).None?
    requires MatchesAt([t[0]] + Substitute(t[1..], phrases, repl), 0, q)
    ensures OccursIgnoringCase(t, q)
  {
    MatchAtKeptStart(t, phrases, repl, q);
    assert 0 <= |t| - |q| && MatchesAt(t, 0, q);
  }

  /** An occurrence in a suffix is an occurrence in the text. */
  lemma OccursInSuffix(t: string, d: nat, q: string)
    requires d <= |t|
    ensures OccursIgnoringCase(t[d..], q) ==> OccursIgnoringCase(t, q)
  {
    if OccursIgnoringCase(t[d..], q) {
      var k :| 0 <= k <= |t| - d - |q| && MatchesAt(t[d..], k, q);
      MatchInSuffix(t, d, k, q);
    }
  }

  /** Where the first character was kept, no phrase of the list matches at
      the start of the result. */
  lemma KeptStartUnmatched(t: string, phrases: seq<string>, repl: string, i: nat)
    requires NonEmpty(phrases) && i < |phrases| && Separated(phrases[i], repl) && |t| > 0
    requires FirstMatch(t, phrases).None?
    ensures !MatchesAt(Substitute(t, phrases, repl), 0, phrases[i])
  {
    var r := Substitute(t, phrases, repl);
    assert r == [t[0]] + Substitute(t[1..], phrases, repl);
    assert !MatchesAt(t, 0, phrases[i]);
    if MatchesAt(r, 0, phrases[i]) {
      MatchAtKeptStart(t, phrases, repl, phrases[i]);
    }
  }

  /** Replacement creates no new occurrence of a separated phrase. */
  lemma {:induction false} NoNewOccurrence(t: string, phrases: seq<string>, repl: string, q: string)
    requires NonEmpty(phrases) && Separated(q, repl)
    ensures OccursIgnoringCase(Substitute(t, phrases, repl), q) ==> OccursIgnoringCase(t, q)
    decreases |t|
  {
    if |t| > 0 {
      match FirstMatch(t, phrases)
      case Some(i) =>
        NoNewOccurrence(t[|phrases[i]|..], phrases, repl, q);
        NoNewAfterReplaced(t, phrases, repl, q, i);
      case None =>
        NoNewOccurrence(t[1..], phrases, repl, q);
        OccursInSuffix(t, 1, q);
        NoNewAfterKept(t, phrases, repl, q);
    }
  }

  /** A separated phrase of the list no longer occurs after replacement. */
  lemma {:induction false} SubstituteRemoves(t: string, phrases: seq<string>, repl: string, i: nat)
    requires NonEmpty(phrases) && i < |phrases| && Separated(phrases[i], repl)
    ensures !OccursIgnoringCase(Substitute(t, phrases, repl), phrases[i])
    decreases |t|
  {
    var p := phrases[i];
    if |t| > 0 {
      match FirstMatch(t, phrases)
      case Some(k) =>
        var s := Substitute(t[|phrases[k]|..], phrases, repl);
        SubstituteRemoves(t[|phrases[k]|..], phrases, repl, i);
        assert Substitute(t, phrases, repl) == repl + s;
        forall m | 0 <= m <= |repl + s| - |p| ensures !MatchesAt(repl + s, m, p) {
          if MatchesAt(repl + s, m, p) {
            MatchAfterReplacement(repl, s, m, p);
          }
        }
      case None =>
        var s := Substitute(t[1..], phrases, repl);
        SubstituteRemoves(t[1..], phrases, repl, i);
        assert Substitute(t, phrases, repl) == [t[0]] + s;
        KeptStartUnmatched(t, phrases, repl, i);
        forall m | 1 <= m <= |[t[0]] + s| - |p| ensures !MatchesAt([t[0]] + s, m, p) {
          if MatchesAt([t[0]] + s, m, p) {
            MatchAfterKept(t[0], s, m, p);
          }
        }
    }
  }
}
