/** `generate_insights` and `create_mock_analysis` (main.rs, lines 247-313): the insight lines
    of a real analysis, and the fixed sample report shown when there is nothing real to show. */
module Insights {
  import opened Wrappers
  import opened Types
  import opened Text
  import opened Selection

  const AnalyzedPrefix := "Successfully analyzed "
  const AnalyzedMiddle := " transactions from "
  const AlertAdvice := "Consider setting up spending alerts for your top categories"
  const SampleNotice := "Showing sample data for demonstration"
  const UploadHint := "Upload a CSV with Date, Description, Amount columns for real analysis"

  /** Transactions under this amount are small. */
  const SmallLimit := 10.0
  /** More than this many small transactions earn an insight line. */
  const SmallCountThreshold := 5

  /** The opening line: the number of transactions and the file name. */
  function AnalyzedLine(count: nat, path: string): string
  {
    AnalyzedPrefix + NatToString(count) + AnalyzedMiddle + LastSegment(path)
  }

  /** The transaction itself when it is small. */
  function SmallPick(t: Transaction): Option<Transaction>
  {
    if t.amount < SmallLimit then Some(t) else None
  }

  /** The transactions under $10, in order: the `filter` of lines 260-262. */
  function SmallOnes(txs: seq<Transaction>): seq<Transaction>
  {
    Select(txs, SmallPick)
  }

  /** The small transactions are the statement's transactions under 10, in order and each as
      often as it occurs: the j-th is the one at the j-th small position, and every small
      position is used. */
  lemma SmallOnesInOrder(txs: seq<Transaction>)
    ensures var ps := PositionsFrom(txs, SmallPick, 0);
            && |ps| == |SmallOnes(txs)|
            && (forall j, k :: 0 <= j < k < |ps| ==> ps[j] < ps[k])
            && (forall j :: 0 <= j < |ps| ==>
                  ps[j] < |txs| && txs[ps[j]].amount < SmallLimit && SmallOnes(txs)[j] == txs[ps[j]])
            && (forall i :: 0 <= i < |txs| && txs[i].amount < SmallLimit ==> i in ps)
  {
    PositionsIncrease(txs, SmallPick, 0);
    SelectAtPositions(txs, SmallPick, 0);
    PositionsComplete(txs, SmallPick, 0);
    assert txs[0..] == txs;
  }

  /** The positions of the statement that hold an amount under 10. */
  ghost function SmallPositions(txs: seq<Transaction>): set<nat>
  {
    set i: nat | i < |txs| && txs[i].amount < SmallLimit
  }

  /** There are as many small transactions as positions holding an amount under 10, which is
      the count that `len()` gives at line 264. */
  lemma SmallCount(txs: seq<Transaction>)
    ensures |SmallOnes(txs)| == |SmallPositions(txs)|
  {
    SelectAtPositions(txs, SmallPick, 0);
    PositionsCount(txs, SmallPick, 0);
    assert txs[0..] == txs;
    assert Accepted(txs, SmallPick, 0) == SmallPositions(txs);
  }

  /** The largest category and its share, when there is a category: the first one, which is
      the largest once the categories are sorted. */
  function TopOf(categories: seq<CategoryTotal>): Option<(string, real)>
  {
    if categories == [] then None else Some((categories[0].category, categories[0].percentage))
  }

  /** The number and sum of the small transactions, when there are more than five. */
  function SmallSummary(txs: seq<Transaction>): Option<(nat, real)>
  {
    var small := SmallOnes(txs);
    if |small| > SmallCountThreshold then Some((|small|, Total(small))) else None
  }

  /** The lines built in order: the opening line, the category line and the small-transaction
      line when there are such, and the closing advice. */
  function Lines(opening: string, top: Option<(string, real)>, summary: Option<(nat, real)>): seq<Insight>
  {
    var head := [Line(opening)];
    var withTop := if top.Some? then head + [LargestCategory(top.value.0, top.value.1)] else head;
    var withSmall := if summary.Some? then withTop + [SmallTransactions(summary.value.0, summary.value.1)] else withTop;
    withSmall + [Line(AlertAdvice)]
  }

  /** Where each line is: the opening line first and the advice last; the category line second
      exactly when there is one; the small-transaction line second-last exactly when there is one. */
  ghost predicate LinesFor(insights: seq<Insight>, opening: string, top: Option<(string, real)>, summary: Option<(nat, real)>)
  {
    && |insights| == 2 + (if top.Some? then 1 else 0) + (if summary.Some? then 1 else 0)
    && insights[0] == Line(opening)
    && insights[|insights| - 1] == Line(AlertAdvice)
    && (top.Some? <==> insights[1].LargestCategory?)
    && (top.Some? ==> insights[1] == LargestCategory(top.value.0, top.value.1))
    && (summary.Some? <==> insights[|insights| - 2].SmallTransactions?)
    && (summary.Some? ==> insights[|insights| - 2] == SmallTransactions(summary.value.0, summary.value.1))
  }

  lemma LinesPlaced(opening: string, top: Option<(string, real)>, summary: Option<(nat, real)>)
    ensures LinesFor(Lines(opening, top, summary), opening, top, summary)
  {
  }

  /** The lines `generate_insights` produces for a statement. */
  ghost predicate InsightsFor(insights: seq<Insight>, txs: seq<Transaction>, categories: seq<CategoryTotal>, path: string)
  {
    LinesFor(insights, AnalyzedLine(|txs|, path), TopOf(categories), SmallSummary(txs))
  }

  method GenerateInsights(txs: seq<Transaction>, categories: seq<CategoryTotal>, path: string) returns (insights: seq<Insight>)
    ensures InsightsFor(insights, txs, categories, path)
    ensures 2 <= |insights| <= 4
  {
    insights := [];
    insights := insights + [Line(AnalyzedLine(|txs|, path))];
    assert insights == [Line(AnalyzedLine(|txs|, path))];
    if |categories| > 0 {
      var top := categories[0];
      insights := insights + [LargestCategory(top.category, top.percentage)];
    }
    var small := SmallOnes(txs);
    if |small| > SmallCountThreshold {
      insights := insights + [SmallTransactions(|small|, Total(small))];
    }
    insights := insights + [Line(AlertAdvice)];
    assert insights == Lines(AnalyzedLine(|txs|, path), TopOf(categories), SmallSummary(txs));
    LinesPlaced(AnalyzedLine(|txs|, path), TopOf(categories), SmallSummary(txs));
  }

  /** Length of the run of digits that `s` starts with. */
  function DigitRun(s: string): nat
  {
    if s != [] && IsDigit(s[0]) then 1 + DigitRun(s[1..]) else 0
  }

  lemma {:induction false} DigitRunOf(d: string, r: string)
    requires AllDigits(d)
    requires r != [] && !IsDigit(r[0])
    ensures DigitRun(d + r) == |d|
  {
    if d != [] {
      assert (d + r)[1..] == d[1..] + r;
      DigitRunOf(d[1..], r);
    } else {
      assert d + r == r;
    }
  }

  /** Digits followed by a non-digit: where the digits end is fixed. */
  lemma DigitsPrefix(d1: string, r1: string, d2: string, r2: string)
    requires AllDigits(d1) && AllDigits(d2)
    requires r1 != [] && r2 != [] && !IsDigit(r1[0]) && !IsDigit(r2[0])
    requires d1 + r1 == d2 + r2
    ensures d1 == d2 && r1 == r2
  {
    DigitRunOf(d1, r1);
    DigitRunOf(d2, r2);
    assert d1 == (d1 + r1)[..|d1|];
    assert d2 == (d2 + r2)[..|d2|];
    assert r1 == (d1 + r1)[|d1|..];
    assert r2 == (d2 + r2)[|d2|..];
  }

  /** A line made of a fixed prefix, digits, a fixed middle that starts with a non-digit, and
      a tail gives back its digits and its tail. */
  lemma FramedDigits(pre: string, mid: string, d1: string, t1: string, d2: string, t2: string)
    requires AllDigits(d1) && AllDigits(d2)
    requires mid != [] && !IsDigit(mid[0])
    requires pre + d1 + mid + t1 == pre + d2 + mid + t2
    ensures d1 == d2 && t1 == t2
  {
    var x1, x2 := pre + d1 + mid + t1, pre + d2 + mid + t2;
    assert x1 == pre + (d1 + (mid + t1));
    assert x2 == pre + (d2 + (mid + t2));
    assert d1 + (mid + t1) == x1[|pre|..];
    assert d2 + (mid + t2) == x2[|pre|..];
    DigitsPrefix(d1, mid + t1, d2, mid + t2);
    assert t1 == (mid + t1)[|mid|..];
    assert t2 == (mid + t2)[|mid|..];
  }

  /** The opening line gives back the count and the file name it was made from. */
  lemma AnalyzedLineReadsBack(n: nat, p: string, m: nat, q: string)
    requires AnalyzedLine(n, p) == AnalyzedLine(m, q)
    ensures n == m && LastSegment(p) == LastSegment(q)
  {
    assert AnalyzedMiddle[0] == ' ';
    FramedDigits(AnalyzedPrefix, AnalyzedMiddle, NatToString(n), LastSegment(p), NatToString(m), LastSegment(q));
    DigitsOfNat(n);
    DigitsOfNat(m);
  }

  const SampleCategories := [
    CategoryTotal("Food & Dining", 250.50, 35.2),
    CategoryTotal("Gas & Transportation", 180.25, 25.3)
  ]
  const SampleMerchants := [MerchantTotal("Sample Data", 85.50, 12)]
  const SampleTotal := 712.45

  function FileLine(path: string): string
  {
    "File: " + LastSegment(path)
  }

  /** The fixed sample report for `path`, with the optional note after the file line. */
  ghost predicate IsSample(report: AnalysisResult, path: string, note: Option<string>)
  {
    && report.spendingCategories == SampleCategories
    && report.topMerchants == SampleMerchants
    && report.monthlyTotal == SampleTotal
    && report.transactionCount == 0
    && report.insights ==
         [Line(FileLine(path))] + (if note.Some? then [Line(note.value)] else [])
         + [Line(SampleNotice), Line(UploadHint)]
  }

  method CreateMockAnalysis(path: string, note: Option<string>) returns (report: AnalysisResult)
    ensures IsSample(report, path, note)
    ensures |report.insights| == (if note.Some? then 4 else 3)
  {
    var insights := [Line(FileLine(path))];
    if note.Some? {
      insights := insights + [Line(note.value)];
    }
    insights := insights + [Line(SampleNotice), Line(UploadHint)];
    report := AnalysisResult(SampleCategories, SampleMerchants, SampleTotal, insights, 0);
  }
}
