/** The news context: parsing the language model's free-text answer into at
    most five news items, and rendering a list of items into the prompt. */
module News {
  import opened Wrappers
  import opened Text

  datatype NewsItem = NewsItem(title: string, date: string, snippet: string)

  const RecentDate: string := "Recent"
  const MaxTitleLength: nat := 150
  const MaxItems: nat := 5
  const FallbackSnippetLength: nat := 300

  /** A stripped line that opens a new item: non-empty, shorter than 150
      characters and not starting with a blank. */
  predicate IsTitleLine(line: string) {
    |line| > 0 && |line| < MaxTitleLength && line[0] != ' '
  }

  /** After stripping, the blank test never fails: a non-empty stripped
      line shorter than 150 characters is always a title. */
  lemma StrippedLineStartsWithNoBlank(raw: string)
    ensures var line := Strip(raw);
      0 < |line| < MaxTitleLength ==> IsTitleLine(line)
  {
  }

  /** Items closed so far and the item being filled, if any. */
  datatype ParseState = ParseState(items: seq<NewsItem>, current: Option<NewsItem>)

  function Open(st: ParseState): seq<NewsItem> {
    if st.current.Some? then [st.current.value] else []
  }

  /** The closed items followed by the open one. */
  function Flush(st: ParseState): seq<NewsItem> {
    st.items + Open(st)
  }

  /** One line of the answer: a blank line closes the open item, a title
      line closes it and opens a new one, any other line extends the open
      item's snippet (and is dropped when no item is open). */
  function Step(st: ParseState, raw: string): ParseState {
    StepLine(st, Strip(raw))
  }

  /** The same step on a line already stripped. */
  function StepLine(st: ParseState, line: string): ParseState {
    if |line| == 0 then ParseState(Flush(st), None)
    else if IsTitleLine(line) then ParseState(Flush(st), Some(NewsItem(line, RecentDate, "")))
    else if st.current.Some? then
      ParseState(st.items, Some(st.current.value.(snippet := st.current.value.snippet + " " + line)))
    else st
  }

  function Run(lines: seq<string>): ParseState {
    if |lines| == 0 then ParseState([], None)
    else Step(Run(lines[..|lines| - 1]), lines[|lines| - 1])
  }

  /** The title lines among the stripped lines, in order. */
  function TitleLines(lines: seq<string>): seq<string> {
    if |lines| == 0 then []
    else
      var line := Strip(lines[|lines| - 1]);
      TitleLines(lines[..|lines| - 1]) + (if IsTitleLine(line) then [line] else [])
  }

  function Titles(items: seq<NewsItem>): (ts: seq<string>)
    ensures |ts| == |items|
    ensures forall i :: 0 <= i < |items| ==> ts[i] == items[i].title
  {
    if |items| == 0 then [] else Titles(items[..|items| - 1]) + [items[|items| - 1].title]
  }

  lemma {:induction false} TitlesAppend(a: seq<NewsItem>, b: seq<NewsItem>)
    ensures Titles(a + b) == Titles(a) + Titles(b)
  {
  }

  /** Every item the parser forms carries the date 'Recent' and a snippet
      that is empty or built from ' '-prefixed continuation lines. */
  predicate WellFormed(n: NewsItem) {
    n.date == RecentDate && (n.snippet == [] || n.snippet[0] == ' ')
  }

  /** One line adds its stripped text to the titles when it is a title
      line and leaves them alone otherwise. */
  lemma StepTitles(st: ParseState, raw: string)
    ensures var line := Strip(raw);
      Titles(Flush(Step(st, raw))) == Titles(Flush(st)) + (if IsTitleLine(line) then [line] else [])
  {
    var line := Strip(raw);
    var next := Step(st, raw);
    TitlesAppend(st.items, Open(st));
    TitlesAppend(next.items, Open(next));
    if |line| == 0 || IsTitleLine(line) {
      assert next.items == Flush(st);
    } else if st.current.Some? {
      assert Titles(Open(next)) == Titles(Open(st));
    }
  }

  lemma StepWellFormed(st: ParseState, raw: string)
    requires forall n :: n in Flush(st) ==> WellFormed(n)
    ensures forall n :: n in Flush(Step(st, raw)) ==> WellFormed(n)
  {
    var line := Strip(raw);
    if |line| > 0 && !IsTitleLine(line) && st.current.Some? {
      assert st.current.value in Flush(st);
      assert st.items <= Flush(st);
    }
  }

  /** The items formed from the lines are exactly one per title line, in
      the order of the title lines, and each is well formed. */
  lemma {:induction false} RunTitles(lines: seq<string>)
    ensures Titles(Flush(Run(lines))) == TitleLines(lines)
    ensures forall n :: n in Flush(Run(lines)) ==> WellFormed(n)
  {
    if |lines| > 0 {
      var init := lines[..|lines| - 1];
      RunTitles(init);
      StepTitles(Run(init), lines[|lines| - 1]);
      StepWellFormed(Run(init), lines[|lines| - 1]);
    }
  }

  /** A stripped line that extends the open item's snippet: not blank and
      not a title line. */
  predicate Continues(line: string) {
    |line| > 0 && !IsTitleLine(line)
  }

  /** The lines of the answer, each stripped. */
  function StripAll(lines: seq<string>): (ls: seq<string>)
    ensures |ls| == |lines|
  {
    if |lines| == 0 then [] else StripAll(lines[..|lines| - 1]) + [Strip(lines[|lines| - 1])]
  }

  /** How many stripped lines at the front continue a snippet. */
  function LeadingContinuation(ls: seq<string>): (n: nat)
    ensures n <= |ls|
  {
    if |ls| == 0 || !Continues(ls[0]) then 0
    else 1 + LeadingContinuation(ls[1..])
  }

  /** The text continuation lines add to a snippet: each line after a
      blank. */
  function Prefixed(ls: seq<string>): string {
    if |ls| == 0 then "" else " " + ls[0] + Prefixed(ls[1..])
  }

  /** The stripped answer read from the front, as a reference for the
      parser: every title line opens one item, dated 'Recent', whose snippet
      is made of the continuation lines directly below it, up to the next
      blank line, title line or the end. Continuation lines with no title
      above them in their block are dropped. */
  function Items(ls: seq<string>): seq<NewsItem> {
    if |ls| == 0 then []
    else
      var rest := ls[1..];
      if IsTitleLine(ls[0]) then
        [NewsItem(ls[0], RecentDate, Prefixed(rest[..LeadingContinuation(rest)]))] + Items(rest)
      else Items(rest)
  }

  /** The parser's loop over stripped lines, started from a given state. */
  function RunFrom(st: ParseState, ls: seq<string>): ParseState
    decreases |ls|
  {
    if |ls| == 0 then st else RunFrom(StepLine(st, ls[0]), ls[1..])
  }

  lemma {:induction false} RunFromSnoc(st: ParseState, a: seq<string>, x: string)
    ensures RunFrom(st, a + [x]) == StepLine(RunFrom(st, a), x)
    decreases |a|
  {
    if |a| > 0 {
      assert (a + [x])[1..] == a[1..] + [x];
      RunFromSnoc(StepLine(st, a[0]), a[1..], x);
    }
  }

  lemma {:induction false} RunIsFold(lines: seq<string>)
    ensures Run(lines) == RunFrom(ParseState([], None), StripAll(lines))
  {
    if |lines| > 0 {
      var init := lines[..|lines| - 1];
      RunIsFold(init);
      RunFromSnoc(ParseState([], None), StripAll(init), Strip(lines[|lines| - 1]));
    }
  }

  /** The open item, if any, with more text appended to its snippet. */
  function Carry(st: ParseState, more: string): seq<NewsItem> {
    if st.current.Some? then [st.current.value.(snippet := st.current.value.snippet + more)] else []
  }

  /** What the loop produces from a state: the closed items, the open item
      with the leading continuation lines appended to its snippet, then the
      items the remaining lines form. */
  lemma {:induction false} RunFromItems(st: ParseState, ls: seq<string>)
    ensures Flush(RunFrom(st, ls)) ==
      st.items + Carry(st, Prefixed(ls[..LeadingContinuation(ls)])) + Items(ls)
    decreases |ls|
  {
    if |ls| == 0 {
      assert ls[..0] == [];
      CarryNothing(st);
    } else {
      RunFromItems(StepLine(st, ls[0]), ls[1..]);
      if Continues(ls[0]) {
        ContinuationStep(st, ls);
      } else {
        BreakStep(st, ls);
      }
    }
  }

  lemma CarryNothing(st: ParseState)
    ensures st.items + Carry(st, "") == Flush(st)
  {
    if st.current.Some? {
      assert st.current.value.snippet + "" == st.current.value.snippet;
    }
  }

  /** The state after one line and the items still to come, against the
      state before it. */
  predicate StepAgrees(st: ParseState, ls: seq<string>)
    requires |ls| > 0
  {
    var next := StepLine(st, ls[0]);
    var rest := ls[1..];
    next.items + Carry(next, Prefixed(rest[..LeadingContinuation(rest)])) + Items(rest)
    == st.items + Carry(st, Prefixed(ls[..LeadingContinuation(ls)])) + Items(ls)
  }

  /** A blank or title line: the open item is closed as it is. */
  lemma BreakStep(st: ParseState, ls: seq<string>)
    requires |ls| > 0 && !Continues(ls[0])
    ensures StepAgrees(st, ls)
  {
    var rest := ls[1..];
    var p := Prefixed(rest[..LeadingContinuation(rest)]);
    assert ls[..LeadingContinuation(ls)] == [];
    CarryNothing(st);
    if IsTitleLine(ls[0]) {
      var item := NewsItem(ls[0], RecentDate, "");
      assert "" + p == p;
      assert item.(snippet := item.snippet + p) == NewsItem(ls[0], RecentDate, p);
    }
  }

  /** A continuation line: appended to the open item, or dropped. */
  lemma ContinuationStep(st: ParseState, ls: seq<string>)
    requires |ls| > 0 && Continues(ls[0])
    ensures StepAgrees(st, ls)
  {
    var rest := ls[1..];
    var more := Prefixed(rest[..LeadingContinuation(rest)]);
    var pre := ls[..LeadingContinuation(ls)];
    assert pre[0] == ls[0] && pre[1..] == rest[..LeadingContinuation(rest)];
    if st.current.Some? {
      var cur := st.current.value;
      assert cur.snippet + " " + ls[0] + more == cur.snippet + Prefixed(pre);
    }
  }

  /** The parser's items are the reference reading of the stripped answer:
      item k has the k-th title line as its title and, as its snippet,
      ' ' + line for each continuation line below that title up to the next
      blank or title line. */
  lemma RunItems(lines: seq<string>)
    ensures Flush(Run(lines)) == Items(StripAll(lines))
  {
    RunIsFold(lines);
    RunFromItems(ParseState([], None), StripAll(lines));
  }

  /** The answer parsed into news items: the items formed from the lines,
      or a single item built from the whole answer when none forms, cut to
      the first five. */
  function ParseResponse(content: string, pair: string): (items: seq<NewsItem>)
    ensures 1 <= |items| <= MaxItems
  {
    var formed := Flush(Run(Split(content, '\n')));
    var all := if |formed| == 0 then [FallbackItem(content, pair)] else formed;
    if |all| <= MaxItems then all else all[..MaxItems]
  }

  function FallbackItem(content: string, pair: string): (n: NewsItem)
    ensures n.title == "Contexto sobre " + pair
    ensures n.date == RecentDate
    ensures |n.snippet| == if |content| < FallbackSnippetLength then |content| else FallbackSnippetLength
    ensures content == n.snippet + content[|n.snippet|..]
  {
    var cut := if |content| < FallbackSnippetLength then |content| else FallbackSnippetLength;
    NewsItem("Contexto sobre " + pair, RecentDate, content[..cut])
  }

  /** The items are the first five title lines of the answer in order, each
      dated 'Recent' and carrying the snippet the reference reading gives
      it; when no line of the answer is a title, the result is the single
      item about the currency pair holding the first 300 characters of the
      answer. */
  lemma ParseResponseShape(content: string, pair: string)
    ensures var items := ParseResponse(content, pair);
      var titles := TitleLines(Split(content, '\n'));
      && (|titles| == 0 ==> items == [FallbackItem(content, pair)])
      && (|titles| > 0 ==>
            && |items| == (if |titles| < MaxItems then |titles| else MaxItems)
            && (forall i :: 0 <= i < |items| ==> items[i].title == titles[i] && WellFormed(items[i])))
    ensures var items := ParseResponse(content, pair);
      var reference := Items(StripAll(Split(content, '\n')));
      |reference| > 0 ==>
        && |items| == (if |reference| < MaxItems then |reference| else MaxItems)
        && forall i :: 0 <= i < |items| ==> items[i] == reference[i]
  {
    var lines := Split(content, '\n');
    RunTitles(lines);
    RunItems(lines);
    var formed := Flush(Run(lines));
    assert |formed| == |TitleLines(lines)|;
    if |formed| > 0 {
      var items := ParseResponse(content, pair);
      forall i | 0 <= i < |items| ensures items[i].title == TitleLines(lines)[i] && WellFormed(items[i]) {
        assert items[i] == formed[i];
        assert Titles(formed)[i] == formed[i].title;
      }
    }
  }

  /** A news entry as the formatter reads it: any key may be missing. */
  datatype NewsRecord = NewsRecord(title: Option<string>, date: Option<string>, snippet: Option<string>)

  function Record(n: NewsItem): NewsRecord {
    NewsRecord(Some(n.title), Some(n.date), Some(n.snippet))
  }

  const NoNewsMessage: string := "Nenhuma notícia recente disponível."
  const NewsHeader: string := "Notícias e contexto recente:\n"

  /** One numbered entry, with 'Sem título', 'N/A' and 'Sem resumo' for
      missing keys. */
  function Block(number: nat, r: NewsRecord): string {
    NatToString(number) + ". " + r.title.GetOr("Sem título") + "\n"
      + "   Data: " + r.date.GetOr("N/A") + "\n"
      + "   " + r.snippet.GetOr("Sem resumo") + "\n\n"
  }

  /** The entries numbered from 1. */
  function Blocks(rs: seq<NewsRecord>): string {
    if |rs| == 0 then [] else Blocks(rs[..|rs| - 1]) + Block(|rs|, rs[|rs| - 1])
  }

  function FormatNews(rs: seq<NewsRecord>): (text: string)
    ensures |rs| == 0 ==> text == NoNewsMessage
    ensures |rs| > 0 ==> NewsHeader <= text
  {
    if |rs| == 0 then NoNewsMessage else NewsHeader + Blocks(rs)
  }

  /** The entry of item i, numbered i + 1, follows the header and the
      entries of the items before it. */
  lemma {:induction false} BlocksPrefix(rs: seq<NewsRecord>, i: nat)
    requires i < |rs|
    ensures Blocks(rs[..i]) + Block(i + 1, rs[i]) <= Blocks(rs)
  {
    if i < |rs| - 1 {
      var init := rs[..|rs| - 1];
      BlocksPrefix(init, i);
      assert init[..i] == rs[..i];
    } else {
      assert rs[..|rs| - 1] == rs[..i];
    }
  }

  /** Every item appears in the rendered text, in order, as its numbered
      entry: entry i + 1 starts right after the header and the entries of
      items 0..i-1. */
  lemma FormatNewsListsEveryItem(rs: seq<NewsRecord>, i: nat)
    requires i < |rs|
    ensures var at := |NewsHeader| + |Blocks(rs[..i])|;
      var b := Block(i + 1, rs[i]);
      at + |b| <= |FormatNews(rs)| && FormatNews(rs)[at..at + |b|] == b
  {
    BlocksPrefix(rs, i);
    var head := NewsHeader + Blocks(rs[..i]);
    var b := Block(i + 1, rs[i]);
    var text := FormatNews(rs);
    assert text == NewsHeader + Blocks(rs);
    assert head + b <= text;
    assert (head + b)[|head|..|head| + |b|] == b;
  }

}
