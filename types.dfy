/** The records of the analyzer (main.rs, lines 10-39), with amounts as exact reals. */
module Types {
  import opened Wrappers

  /** One statement line. `category` stays None until categorisation. */
  datatype Transaction = Transaction(date: string, description: string, amount: real, category: Option<string>)

  datatype CategoryTotal = CategoryTotal(category: string, total: real, percentage: real)

  datatype MerchantTotal = MerchantTotal(merchant: string, total: real, count: nat)

  /** One insight line. The two lines whose text holds a float formatted to a fixed number of
      decimals keep the value instead of its digits; every other line is its exact text. */
  datatype Insight =
    | Line(text: string)
    | LargestCategory(category: string, percentage: real)
    | SmallTransactions(count: nat, total: real)

  datatype AnalysisResult = AnalysisResult(
    spendingCategories: seq<CategoryTotal>,
    topMerchants: seq<MerchantTotal>,
    monthlyTotal: real,
    insights: seq<Insight>,
    transactionCount: nat)

  /** Sum of the amounts, folded from the left as Rust's `iter().sum()` does. */
  function Total(txs: seq<Transaction>): real
  {
    if txs == [] then 0.0 else Total(txs[..|txs| - 1]) + txs[|txs| - 1].amount
  }

  /** The total of two statements one after the other is the sum of their totals. */
  lemma {:induction false} TotalAppend(a: seq<Transaction>, b: seq<Transaction>)
    ensures Total(a + b) == Total(a) + Total(b)
    decreases |b|
  {
    if b == [] {
      assert a + b == a;
    } else {
      var init := b[..|b| - 1];
      assert (a + b)[..|a + b| - 1] == a + init;
      assert (a + b)[|a + b| - 1] == b[|b| - 1];
      TotalAppend(a, init);
    }
  }

  lemma {:induction false} TotalOfPositive(txs: seq<Transaction>)
    requires forall i :: 0 <= i < |txs| ==> txs[i].amount > 0.0
    ensures txs != [] ==> Total(txs) > 0.0
    ensures txs == [] ==> Total(txs) == 0.0
  {
    if txs != [] {
      TotalOfPositive(txs[..|txs| - 1]);
    }
  }
}
