/** Validation and slicing of the downloaded OHLC table. A raw row may miss
    any of its prices; validation drops incomplete rows and rows whose prices
    contradict each other, then orders the rest by date. */
module ForexData {
  import opened Wrappers
  import opened Indicators

  datatype RawRow = RawRow(date: int, open: Option<real>, high: Option<real>,
                           low: Option<real>, close: Option<real>, volume: Option<real>)

  /** Open, High, Low and Close are all present. */
  predicate HasPrices(r: RawRow) {
    r.open.Some? && r.high.Some? && r.low.Some? && r.close.Some?
  }

  function ToBar(r: RawRow): Bar
    requires HasPrices(r)
  {
    Bar(r.date, r.open.value, r.high.value, r.low.value, r.close.value, r.volume)
  }

  /** The high is the largest price of the bar and the low the smallest. */
  predicate Consistent(b: Bar) {
    && !(b.high < b.low) && !(b.high < b.open) && !(b.high < b.close)
    && !(b.low > b.open) && !(b.low > b.close)
  }

  predicate Sorted(bars: seq<Bar>) {
    forall i, j :: 0 <= i < j < |bars| ==> bars[i].date <= bars[j].date
  }

  /** The rows that survive both filters, in input order. */
  function Keep(rows: seq<RawRow>): (kept: seq<Bar>)
    ensures |kept| <= |rows|
    ensures forall b :: b in kept ==> Consistent(b)
  {
    if |rows| == 0 then []
    else
      var rest := Keep(rows[..|rows| - 1]);
      var r := rows[|rows| - 1];
      if HasPrices(r) && Consistent(ToBar(r)) then rest + [ToBar(r)] else rest
  }

  /** A bar is kept exactly when some input row has all four prices, they
      are consistent, and the row converts to that bar. */
  lemma {:induction false} KeepMembership(rows: seq<RawRow>, b: Bar)
    ensures b in Keep(rows) <==>
      exists k :: 0 <= k < |rows| && HasPrices(rows[k]) && Consistent(ToBar(rows[k])) && ToBar(rows[k]) == b
  {
    if |rows| > 0 {
      var init := rows[..|rows| - 1];
      KeepMembership(init, b);
      if b in Keep(rows) && b !in Keep(init) {
        assert ToBar(rows[|rows| - 1]) == b;
      }
      if exists k :: 0 <= k < |rows| && HasPrices(rows[k]) && Consistent(ToBar(rows[k])) && ToBar(rows[k]) == b {
        var k :| 0 <= k < |rows| && HasPrices(rows[k]) && Consistent(ToBar(rows[k])) && ToBar(rows[k]) == b;
        if k < |rows| - 1 {
          assert init[k] == rows[k];
        }
      }
    }
  }

  /** Filtering works row by row: the bars kept from a concatenation are
      those kept from each part, in order, and a single row is kept exactly
      when it has all four prices and they are consistent. So every such row
      appears once per occurrence, in input order. */
  lemma {:induction false} KeepAppend(a: seq<RawRow>, b: seq<RawRow>)
    ensures Keep(a + b) == Keep(a) + Keep(b)
    ensures forall r :: Keep([r]) == if HasPrices(r) && Consistent(ToBar(r)) then [ToBar(r)] else []
    decreases |b|
  {
    if |b| > 0 {
      var init := b[..|b| - 1];
      KeepAppend(a, init);
      assert (a + b)[..|a + b| - 1] == a + init;
      assert (a + b)[|a + b| - 1] == b[|b| - 1];
    } else {
      assert a + b == a;
    }
    forall r ensures Keep([r]) == if HasPrices(r) && Consistent(ToBar(r)) then [ToBar(r)] else [] {
      assert [r][..0] == [];
    }
  }

  /** Whether a raw row survives both filters as the bar b. */
  predicate KeptAs(r: RawRow, b: Bar) {
    HasPrices(r) && Consistent(ToBar(r)) && ToBar(r) == b
  }

  /** The number of input rows that survive both filters as the bar b. */
  function Occurrences(rows: seq<RawRow>, b: Bar): nat
  {
    if |rows| == 0 then 0
    else (if KeptAs(rows[0], b) then 1 else 0) + Occurrences(rows[1..], b)
  }

  /** Each bar is kept as many times as there are input rows that become it. */
  lemma {:induction false} KeepCounts(rows: seq<RawRow>, b: Bar)
    ensures multiset(Keep(rows))[b] == Occurrences(rows, b)
    decreases |rows|
  {
    if |rows| > 0 {
      KeepAppend([rows[0]], rows[1..]);
      assert [rows[0]] + rows[1..] == rows;
      KeepCounts(rows[1..], b);
    }
  }

  /** Place a bar after every bar of a sorted run whose date is not later. */
  function Insert(b: Bar, sorted: seq<Bar>): (r: seq<Bar>)
    ensures |r| == |sorted| + 1
  {
    if |sorted| == 0 || sorted[|sorted| - 1].date <= b.date then sorted + [b]
    else Insert(b, sorted[..|sorted| - 1]) + [sorted[|sorted| - 1]]
  }

  /** Order bars by date, keeping bars with equal dates in input order. */
  function SortByDate(bars: seq<Bar>): (r: seq<Bar>)
    ensures |r| == |bars|
  {
    if |bars| == 0 then [] else Insert(bars[|bars| - 1], SortByDate(bars[..|bars| - 1]))
  }

  lemma {:induction false} InsertPermutes(b: Bar, sorted: seq<Bar>)
    ensures multiset(Insert(b, sorted)) == multiset(sorted) + multiset{b}
  {
    if |sorted| > 0 && sorted[|sorted| - 1].date > b.date {
      var init := sorted[..|sorted| - 1];
      InsertPermutes(b, init);
      assert sorted == init + [sorted[|sorted| - 1]];
    }
  }

  /** Insertion adds no date later than a bound that b and the run respect. */
  lemma {:induction false} InsertBounded(b: Bar, sorted: seq<Bar>, d: int)
    requires b.date <= d
    requires forall k :: 0 <= k < |sorted| ==> sorted[k].date <= d
    ensures forall k :: 0 <= k < |sorted| + 1 ==> Insert(b, sorted)[k].date <= d
  {
    if |sorted| > 0 && sorted[|sorted| - 1].date > b.date {
      InsertBounded(b, sorted[..|sorted| - 1], d);
    }
  }

  /** Inserting into a sorted run keeps it sorted. */
  lemma {:induction false} InsertSorted(b: Bar, sorted: seq<Bar>)
    requires Sorted(sorted)
    ensures Sorted(Insert(b, sorted))
  {
    if |sorted| > 0 && sorted[|sorted| - 1].date > b.date {
      var init := sorted[..|sorted| - 1];
      var last := sorted[|sorted| - 1];
      InsertSorted(b, init);
      InsertBounded(b, init, last.date);
      var ins := Insert(b, init);
      var r := ins + [last];
      assert r == Insert(b, sorted);
      forall i, j | 0 <= i < j < |r| ensures r[i].date <= r[j].date {
        if j == |r| - 1 {
          assert r[i] == ins[i];
        } else {
          assert r[i] == ins[i] && r[j] == ins[j];
        }
      }
    }
  }

  /** Sorting yields a date-ordered permutation of its input. */
  lemma {:induction false} SortByDateCorrect(bars: seq<Bar>)
    ensures Sorted(SortByDate(bars))
    ensures multiset(SortByDate(bars)) == multiset(bars)
  {
    if |bars| > 0 {
      var init := bars[..|bars| - 1];
      SortByDateCorrect(init);
      InsertSorted(bars[|bars| - 1], SortByDate(init));
      InsertPermutes(bars[|bars| - 1], SortByDate(init));
      assert bars == init + [bars[|bars| - 1]];
    }
  }

  /** Drop rows missing a price, drop rows whose prices are inconsistent,
      and order the rest by date. The interquartile outlier scan only logs
      and leaves the table unchanged. */
  function ValidateData(rows: seq<RawRow>): (bars: seq<Bar>)
    ensures |bars| <= |rows|
  {
    SortByDate(Keep(rows))
  }

  /** The validated table is ordered by date, holds each bar as many times
      as there are complete and consistent input rows that become it, and
      nothing else. */
  lemma ValidateDataCorrect(rows: seq<RawRow>)
    ensures Sorted(ValidateData(rows))
    ensures multiset(ValidateData(rows)) == multiset(Keep(rows))
    ensures forall b :: multiset(ValidateData(rows))[b] == Occurrences(rows, b)
    ensures forall b :: b in ValidateData(rows) ==> Consistent(b)
    ensures forall b :: b in ValidateData(rows) <==>
      exists k :: 0 <= k < |rows| && HasPrices(rows[k]) && Consistent(ToBar(rows[k])) && ToBar(rows[k]) == b
  {
    SortByDateCorrect(Keep(rows));
    forall b ensures multiset(ValidateData(rows))[b] == Occurrences(rows, b) {
      KeepCounts(rows, b);
    }
    forall b ensures b in ValidateData(rows) <==> b in Keep(rows) {
      assert b in ValidateData(rows) <==> b in multiset(ValidateData(rows));
    }
    forall b ensures b in Keep(rows) <==>
      exists k :: 0 <= k < |rows| && HasPrices(rows[k]) && Consistent(ToBar(rows[k])) && ToBar(rows[k]) == b
    {
      KeepMembership(rows, b);
    }
  }

  /** Validation is idempotent: a validated table validates to itself. */
  lemma ValidateDataIdempotent(rows: seq<RawRow>)
    ensures var bars := ValidateData(rows);
      ValidateData(seq(|bars|, i requires 0 <= i < |bars| => Raw(bars[i]))) == bars
  {
    var bars := ValidateData(rows);
    ValidateDataCorrect(rows);
    var raws := seq(|bars|, i requires 0 <= i < |bars| => Raw(bars[i]));
    KeepAllConsistent(raws, bars);
    SortedIsFixed(bars);
  }

  /** The raw row a bar came from. */
  function Raw(b: Bar): (r: RawRow)
    ensures HasPrices(r) && ToBar(r) == b
  {
    RawRow(b.date, Some(b.open), Some(b.high), Some(b.low), Some(b.close), b.volume)
  }

  lemma {:induction false} KeepAllConsistent(raws: seq<RawRow>, bars: seq<Bar>)
    requires |raws| == |bars|
    requires forall i :: 0 <= i < |bars| ==> raws[i] == Raw(bars[i]) && Consistent(bars[i])
    ensures Keep(raws) == bars
  {
    if |raws| > 0 {
      KeepAllConsistent(raws[..|raws| - 1], bars[..|bars| - 1]);
    }
  }

  lemma {:induction false} SortedIsFixed(bars: seq<Bar>)
    requires Sorted(bars)
    ensures SortByDate(bars) == bars
  {
    if |bars| > 0 {
      var init := bars[..|bars| - 1];
      assert Sorted(init);
      SortedIsFixed(init);
    }
  }

  /** The last rows of the table, as a data-frame tail: a positive count
      keeps that many rows (all of them if there are fewer), zero keeps none,
      and a negative count drops that many rows from the front. */
  function LatestData(bars: seq<Bar>, days: int): (r: seq<Bar>)
    ensures |r| <= |bars|
    ensures r == bars[|bars| - |r|..]
  {
    if days >= 0 then
      if days >= |bars| then bars else bars[|bars| - days..]
    else
      if -days >= |bars| then [] else bars[-days..]
  }

  /** The number of rows a tail keeps. */
  lemma LatestDataLength(bars: seq<Bar>, days: int)
    ensures days >= 0 ==> |LatestData(bars, days)| == if days < |bars| then days else |bars|
    ensures days < 0 ==> |LatestData(bars, days)| == if |bars| + days > 0 then |bars| + days else 0
  {
  }

  /** Taking a tail of a tail keeps the shorter one, and the default single
      day of a non-empty table is its last row. */
  lemma LatestDataCompose(bars: seq<Bar>, a: nat, b: nat)
    ensures LatestData(LatestData(bars, a), b) == LatestData(bars, if a < b then a else b)
    ensures |bars| > 0 ==> LatestData(bars, 1) == [bars[|bars| - 1]]
  {
  }
}
