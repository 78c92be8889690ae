/** `analyze_statement` and `analyze_transactions` (main.rs, lines 41-67 and 137-157): the
    command the desktop front end invokes. Whether the file exists and what reading it gives
    are inputs. */
module Analyzer {
  import opened Wrappers
  import opened Types
  import opened Records
  import opened Categorize
  import opened Grouping
  import opened Sorting
  import opened Aggregate
  import opened Insights

  const FileNotFound := "File not found"
  const ParseFailureNote := "Could not parse file - showing sample data"
  const EmptyFileNote := "No transactions found in file"

  /** The labels the statement's descriptions get. */
  ghost function CategoriesOf(txs: seq<Transaction>): set<string>
  {
    set i | 0 <= i < |txs| :: CategorizeDescription(txs[i].description)
  }

  /** After categorisation every transaction has a category, the categories present are the
      labels of the descriptions, and the total is unchanged. */
  lemma {:induction false} CategorizedStatement(txs: seq<Transaction>)
    ensures KeysOf(CategorizeTransactions(txs), CategoryKey) == CategoriesOf(txs)
    ensures KeyedTotal(CategorizeTransactions(txs), CategoryKey) == Total(txs)
  {
    var cs := CategorizeTransactions(txs);
    assert forall i :: 0 <= i < |cs| ==> CategoryKey(cs[i]) == Some(CategorizeDescription(txs[i].description));
    KeyedIsEverything(cs, CategoryKey);
    SameAmountsSameTotal(cs, txs);
  }

  lemma {:induction false} SameAmountsSameTotal(a: seq<Transaction>, b: seq<Transaction>)
    requires |a| == |b| && forall i :: 0 <= i < |a| ==> a[i].amount == b[i].amount
    ensures Total(a) == Total(b)
  {
    if a != [] {
      SameAmountsSameTotal(a[..|a| - 1], b[..|b| - 1]);
    }
  }

  /** What `analyze_transactions` reports on a statement: its size and total; the categories,
      each once, sorted by sum, holding their true sums and shares, adding up to the total and
      (for a nonempty statement) to 100 percent; the top merchants, ranked as FindTopMerchants
      promises; the insight lines. */
  ghost predicate ReportOf(txs: seq<Transaction>, path: string, report: AnalysisResult)
  {
    && report.transactionCount == |txs|
    && report.monthlyTotal == Total(txs)
    && SortedDesc(report.spendingCategories, CategoryAmount)
    && DistinctBy(report.spendingCategories, CategoryName)
    && KeySet(report.spendingCategories, CategoryName) == CategoriesOf(txs)
    && SumsOf(CategorizeTransactions(txs), report.spendingCategories)
    && SharesOf(report.spendingCategories, Total(txs))
    && TotalsOf(report.spendingCategories) == Total(txs)
    && (txs != [] ==> PercentagesOf(report.spendingCategories) == 100.0)
    && TopMerchantsOf(txs, report.topMerchants)
    && InsightsFor(report.insights, txs, report.spendingCategories, path)
  }

  /** The report of a statement whose total is nonzero unless it is empty. */
  method AnalyzeTransactions(txs: seq<Transaction>, path: string) returns (report: AnalysisResult)
    requires txs == [] || Total(txs) != 0.0
    ensures ReportOf(txs, path, report)
  {
    var total := Total(txs);
    var categorized := CategorizeTransactions(txs);
    CategorizedStatement(txs);
    if txs == [] {
      assert KeysOf(categorized, CategoryKey) == {};
    }
    var categories := CalculateCategories(categorized, total);
    var merchants := FindTopMerchants(txs);
    var insights := GenerateInsights(txs, categories, path);
    report := AnalysisResult(categories, merchants, total, insights, |txs|);
  }

  /** The command: a missing file is the only error. A file that fails to parse, or that yields
      no transactions, gives the sample report with a note saying so; otherwise the report of its
      transactions, exactly as AnalyzeTransactions reports it, whose count and total are then
      nonzero. */
  method AnalyzeStatement(path: string, fileExists: bool, read: FileRead) returns (r: Result<AnalysisResult, string>)
    ensures r.Err? <==> !fileExists
    ensures r.Err? ==> r.error == FileNotFound
    ensures fileExists && FileOutcome(path, read).Err? ==>
              r.Ok? && IsSample(r.value, path, Some(ParseFailureNote))
    ensures fileExists && FileOutcome(path, read) == Ok([]) ==>
              r.Ok? && IsSample(r.value, path, Some(EmptyFileNote))
    ensures fileExists && FileOutcome(path, read).Ok? && FileOutcome(path, read).value != [] ==>
              var txs := FileOutcome(path, read).value;
              && r.Ok?
              && ReportOf(txs, path, r.value)
              && r.value.transactionCount > 0
              && r.value.monthlyTotal > 0.0
    ensures r.Ok? ==> (r.value.transactionCount == 0 <==> r.value.insights[0] == Line(FileLine(path)))
  {
    if !fileExists {
      return Err(FileNotFound);
    }
    var parsed := ParseFile(path, read);
    if parsed.Err? {
      var sample := CreateMockAnalysis(path, Some(ParseFailureNote));
      return Ok(sample);
    }
    var txs := parsed.value;
    if txs == [] {
      var sample := CreateMockAnalysis(path, Some(EmptyFileNote));
      return Ok(sample);
    }
    FileOutcomeSpec(path, read);
    TotalOfPositive(txs);
    var report := AnalyzeTransactions(txs, path);
    OpeningLinesDiffer(|txs|, path);
    r := Ok(report);
  }

  /** A real report never opens with the sample's file line. */
  lemma OpeningLinesDiffer(n: nat, path: string)
    ensures AnalyzedLine(n, path) != FileLine(path)
  {
    assert AnalyzedLine(n, path)[0] == 'S';
    assert FileLine(path)[0] == 'F';
  }
}
