/** Character-level string helpers with Python's meaning: whitespace as
    str.strip sees it, lower-casing, splitting on a separator, case-insensitive
    search and decimal rendering of counters. */
module Text {

  /** Python's whitespace characters (str.isspace). */
  predicate IsSpace(c: char) {
    || ('\U{0009}' <= c <= '\U{000D}') || ('\U{001C}' <= c <= '\U{0020}')
    || c == '\U{0085}' || c == '\U{00A0}' || c == '\U{1680}'
    || ('\U{2000}' <= c <= '\U{200A}') || c == '\U{2028}' || c == '\U{2029}'
    || c == '\U{202F}' || c == '\U{205F}' || c == '\U{3000}'
  }

  /** Neither end of the text is whitespace. */
  predicate Trimmed(s: string) {
    |s| > 0 && !IsSpace(s[0]) && !IsSpace(s[|s| - 1])
  }

  /** Number of whitespace characters at the front. */
  function LeadingSpaces(s: string): (n: nat)
    ensures n <= |s|
    ensures forall k :: 0 <= k < n ==> IsSpace(s[k])
    ensures n < |s| ==> !IsSpace(s[n])
  {
    if |s| == 0 || !IsSpace(s[0]) then 0 else 1 + LeadingSpaces(s[1..])
  }

  /** Number of whitespace characters at the back. */
  function TrailingSpaces(s: string): (n: nat)
    ensures n <= |s|
    ensures forall k :: |s| - n <= k < |s| ==> IsSpace(s[k])
    ensures n < |s| ==> !IsSpace(s[|s| - 1 - n])
  {
    if |s| == 0 || !IsSpace(s[|s| - 1]) then 0 else 1 + TrailingSpaces(s[..|s| - 1])
  }

  /** str.strip(): the text without leading and trailing whitespace. */
  function Strip(s: string): (r: string)
    ensures |r| <= |s|
    ensures r == [] || Trimmed(r)
    ensures r == [] <==> forall k :: 0 <= k < |s| ==> IsSpace(s[k])
  {
    var i := LeadingSpaces(s);
    if i == |s| then []
    else
      var j := TrailingSpaces(s);
      s[i..|s| - j]
  }

  /** Strip removes only whitespace: its result is a slice of the input and
      everything outside the slice is whitespace. */
  lemma StripRemovesOnlySpace(s: string)
    ensures exists i, j :: (0 <= i <= j <= |s| && Strip(s) == s[i..j]
      && (forall k :: 0 <= k < i ==> IsSpace(s[k]))
      && (forall k :: j <= k < |s| ==> IsSpace(s[k])))
  {
    var i := LeadingSpaces(s);
    if i == |s| {
      assert Strip(s) == s[i..i];
    } else {
      var j := TrailingSpaces(s);
      assert Strip(s) == s[i..|s| - j];
    }
  }

  /** A text with no whitespace at either end strips to itself. */
  lemma StripTrimmed(s: string)
    requires Trimmed(s)
    ensures Strip(s) == s
  {
    assert LeadingSpaces(s) == 0;
    assert TrailingSpaces(s) == 0;
    assert s[0..|s|] == s;
  }

  /** Stripping twice is stripping once. */
  lemma StripIdempotent(s: string)
    ensures Strip(Strip(s)) == Strip(s)
  {
    if Strip(s) != [] {
      StripTrimmed(Strip(s));
    }
  }

  /** str.lower() on one character, for the Latin-1 range: A-Z and the
      accented capitals U+00C0..U+00DE (except the multiplication sign) map
      to the letter 32 code points above. */
  function Lower(c: char): (d: char)
    ensures ('A' <= c <= 'Z') ==> d != c
    ensures !('A' <= c <= 'Z') && !('\U{00C0}' <= c <= '\U{00DE}') ==> d == c
  {
    if ('A' <= c <= 'Z') || ('\U{00C0}' <= c <= '\U{00DE}' && c != '\U{00D7}') then
      (c as int + 32) as char
    else c
  }

  /** Lowering is idempotent, and only letters change. */
  lemma LowerIdempotent(c: char)
    ensures Lower(Lower(c)) == Lower(c)
    ensures Lower(c) != c ==> ('A' <= c <= 'Z') || ('\U{00C0}' <= c <= '\U{00DE}')
  {
  }

  predicate IsLowerText(s: string) {
    forall k :: 0 <= k < |s| ==> Lower(s[k]) == s[k]
  }

  function LowerText(s: string): (r: string)
    ensures |r| == |s|
    ensures IsLowerText(r)
  {
    seq(|s|, k requires 0 <= k < |s| => Lower(s[k]))
  }

  /** The text read from position k on begins with p, ignoring case. */
  predicate MatchesAt(t: string, k: int, p: string) {
    0 <= k && k + |p| <= |t| && forall j :: 0 <= j < |p| ==> Lower(t[k + j]) == Lower(p[j])
  }

  /** p occurs somewhere in t, ignoring case (re.search with IGNORECASE). */
  predicate OccursIgnoringCase(t: string, p: string) {
    exists k :: 0 <= k <= |t| - |p| && MatchesAt(t, k, p)
  }

  /** p occurs somewhere in t exactly (the 'in' operator on strings). */
  predicate Occurs(t: string, p: string) {
    exists k :: 0 <= k <= |t| - |p| && ExactlyAt(t, k, p)
  }

  predicate ExactlyAt(t: string, k: int, p: string) {
    0 <= k && k + |p| <= |t| && t[k..k + |p|] == p
  }

  /** A lower-case phrase occurs in the lower-cased text exactly when it
      occurs in the text ignoring case: the test on the lower-cased copy and
      the case-insensitive search agree. */
  lemma LoweredSearchAgrees(t: string, p: string)
    requires IsLowerText(p)
    ensures Occurs(LowerText(t), p) <==> OccursIgnoringCase(t, p)
  {
    var lt := LowerText(t);
    if Occurs(lt, p) {
      var k :| 0 <= k <= |lt| - |p| && ExactlyAt(lt, k, p);
      forall j | 0 <= j < |p| ensures Lower(t[k + j]) == Lower(p[j]) {
        assert lt[k..k + |p|][j] == lt[k + j];
      }
      assert MatchesAt(t, k, p);
    }
    if OccursIgnoringCase(t, p) {
      var k :| 0 <= k <= |t| - |p| && MatchesAt(t, k, p);
      assert lt[k..k + |p|] == p;
      assert ExactlyAt(lt, k, p);
    }
  }

  /** str.split(sep): the pieces between separators; an empty text gives one
      empty piece. */
  function Split(s: string, sep: char): (parts: seq<string>)
    ensures |parts| > 0
    ensures forall i :: 0 <= i < |parts| ==> sep !in parts[i]
  {
    if |s| == 0 then [""]
    else
      var rest := Split(s[1..], sep);
      if s[0] == sep then [""] + rest
      else [[s[0]] + rest[0]] + rest[1..]
  }

  /** sep.join(parts) for a non-empty list. */
  function Join(parts: seq<string>, sep: string): string
    requires |parts| > 0
  {
    if |parts| == 1 then parts[0] else parts[0] + sep + Join(parts[1..], sep)
  }

  /** The joined text ends with the last part. */
  lemma {:induction false} JoinEndsWithLast(parts: seq<string>, sep: string)
    requires |parts| > 0
    ensures var j := Join(parts, sep); var last := parts[|parts| - 1];
      |last| <= |j| && j[|j| - |last|..] == last
  {
    if |parts| > 1 {
      JoinEndsWithLast(parts[1..], sep);
      var rest := Join(parts[1..], sep);
      var last := parts[|parts| - 1];
      assert parts[1..][|parts[1..]| - 1] == last;
      var j := parts[0] + sep + rest;
      assert j[|j| - |last|..] == rest[|rest| - |last|..];
    }
  }

  /** Splitting and joining on the same separator gives back the text. */
  lemma {:induction false} SplitJoin(s: string, sep: char)
    ensures Join(Split(s, sep), [sep]) == s
  {
    if |s| > 0 {
      var rest := Split(s[1..], sep);
      SplitJoin(s[1..], sep);
      if s[0] != sep {
        if |rest| == 1 {
          assert Join(rest, [sep]) == rest[0];
        } else {
          assert Join(rest, [sep]) == rest[0] + [sep] + Join(rest[1..], [sep]);
          assert Split(s, sep)[1..] == rest[1..];
        }
      } else {
        assert Split(s, sep)[1..] == rest;
      }
    }
  }

  /** The decimal digit for 0..9. */
  function Digit(d: nat): char
    requires d < 10
  {
    "0123456789"[d]
  }

  function DigitValue(c: char): nat {
    if '0' <= c <= '9' then (c as int - '0' as int) as nat else 0
  }

  /** Decimal rendering of a natural number, as str(n) and f-strings write it. */
  function NatToString(n: nat): (s: string)
    ensures |s| > 0
    ensures forall k :: 0 <= k < |s| ==> '0' <= s[k] <= '9'
    ensures |s| > 1 ==> s[0] != '0'
  {
    if n < 10 then [Digit(n)] else NatToString(n / 10) + [Digit(n % 10)]
  }

  /** The value of a string of decimal digits. */
  function ParseNat(s: string): nat {
    if |s| == 0 then 0 else 10 * ParseNat(s[..|s| - 1]) + DigitValue(s[|s| - 1])
  }

  /** Rendering a number and reading it back gives the number. */
  lemma {:induction false} NatToStringRoundTrip(n: nat)
    ensures ParseNat(NatToString(n)) == n
  {
    if n >= 10 {
      NatToStringRoundTrip(n / 10);
      var s := NatToString(n);
      assert s[..|s| - 1] == NatToString(n / 10);
    }
  }

  /** A match of a + g + b contains a match of g, so a phrase containing a
      group that is absent from the text is absent too. */
  lemma ExcludedByPart(t: string, a: string, g: string, b: string)
    requires !OccursIgnoringCase(t, g)
    ensures !OccursIgnoringCase(t, a + g + b)
  {
    var p := a + g + b;
    forall k | 0 <= k <= |t| - |p| ensures !MatchesAt(t, k, p) {
      assert !MatchesAt(t, k + |a|, g);
      var j :| 0 <= j < |g| && Lower(t[k + |a| + j]) != Lower(g[j]);
      assert p[|a| + j] == g[j];
    }
  }

  /** Matching inside a suffix is matching further along the whole text. */
  lemma MatchInSuffix(t: string, d: nat, k: int, p: string)
    requires d <= |t|
    ensures MatchesAt(t[d..], k, p) <==> (k >= 0 && MatchesAt(t, k + d, p))
  {
    if MatchesAt(t[d..], k, p) {
      forall j | 0 <= j < |p| ensures Lower(t[k + d + j]) == Lower(p[j]) {
        assert t[d..][k + j] == t[k + d + j];
      }
    }
    if k >= 0 && MatchesAt(t, k + d, p) {
      forall j | 0 <= j < |p| ensures Lower(t[d..][k + j]) == Lower(p[j]) {
        assert t[d..][k + j] == t[k + d + j];
      }
    }
  }

  /** A lower-case character that no character of s lowers to does not
      occur in s. */
  lemma LacksChar(s: string, x: char)
    requires Lower(x) == x
    requires forall k :: 0 <= k < |s| ==> Lower(s[k]) != x
    ensures !OccursIgnoringCase(s, [x])
  {
    forall k | 0 <= k <= |s| - 1 ensures !MatchesAt(s, k, [x]) {
      assert [x][0] == x;
    }
  }

  lemma LacksPair(s: string, x: char, y: char)
    requires Lower(x) == x && Lower(y) == y
    requires forall k :: 0 <= k < |s| - 1 ==> !(Lower(s[k]) == x && Lower(s[k + 1]) == y)
    ensures !OccursIgnoringCase(s, [x, y])
  {
    forall k | 0 <= k <= |s| - 2 ensures !MatchesAt(s, k, [x, y]) {
      assert [x, y][0] == x && [x, y][1] == y;
    }
  }

  lemma LacksTriple(s: string, x: char, y: char, z: char)
    requires Lower(x) == x && Lower(y) == y && Lower(z) == z
    requires forall k :: 0 <= k < |s| - 2 ==> !(Lower(s[k]) == x && Lower(s[k + 1]) == y && Lower(s[k + 2]) == z)
    ensures !OccursIgnoringCase(s, [x, y, z])
  {
    forall k | 0 <= k <= |s| - 3 ensures !MatchesAt(s, k, [x, y, z]) {
      assert [x, y, z][0] == x && [x, y, z][1] == y && [x, y, z][2] == z;
    }
  }

  /** A phrase absent from both halves is absent from their concatenation
      unless it spans the junction, which needs the last character of a and
      the first of b to be adjacent in the phrase. */
  lemma ConcatAbsent(a: string, b: string, g: string)
    requires |a| > 0 && |b| > 0
    requires !OccursIgnoringCase(a, g) && !OccursIgnoringCase(b, g)
    requires forall i :: 0 <= i < |g| - 1 ==>
      !(Lower(g[i]) == Lower(a[|a| - 1]) && Lower(g[i + 1]) == Lower(b[0]))
    ensures !OccursIgnoringCase(a + b, g)
  {
    var t := a + b;
    forall k | 0 <= k <= |t| - |g| ensures !MatchesAt(t, k, g) {
      if k + |g| <= |a| {
        assert !MatchesAt(a, k, g);
        var j :| 0 <= j < |g| && Lower(a[k + j]) != Lower(g[j]);
        assert t[k + j] == a[k + j];
      } else if k >= |a| {
        assert !MatchesAt(b, k - |a|, g);
        var j :| 0 <= j < |g| && Lower(b[k - |a| + j]) != Lower(g[j]);
        assert t[k + j] == b[k - |a| + j];
      } else {
        var i := |a| - 1 - k;
        assert t[k + i] == a[|a| - 1] && t[k + i + 1] == b[0];
        assert !(Lower(g[i]) == Lower(a[|a| - 1]) && Lower(g[i + 1]) == Lower(b[0]));
        assert Lower(t[k + i]) != Lower(g[i]) || Lower(t[k + i + 1]) != Lower(g[i + 1]);
      }
    }
  }
}
