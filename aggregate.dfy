/** `calculate_categories` and `find_top_merchants` (main.rs, lines 194-239): group the
    statement, turn the map into entries, sort them by total, largest first. The map is
    consumed in an order the program does not fix (a `HashMap`); the model picks each
    remaining key nondeterministically. */
module Aggregate {
  import opened Wrappers
  import opened Types
  import opened Grouping
  import opened Sorting
  import opened Merchants

  function CategoryKey(t: Transaction): Option<string> { t.category }

  function MerchantKey(t: Transaction): Option<string> { Some(ExtractMerchantName(t.description)) }

  function CategoryName(c: CategoryTotal): string { c.category }

  function CategoryAmount(c: CategoryTotal): real { c.total }

  function MerchantName(m: MerchantTotal): string { m.merchant }

  function MerchantAmount(m: MerchantTotal): real { m.total }

  function TotalsOf(cs: seq<CategoryTotal>): real
  {
    if cs == [] then 0.0 else TotalsOf(cs[..|cs| - 1]) + cs[|cs| - 1].total
  }

  function PercentagesOf(cs: seq<CategoryTotal>): real
  {
    if cs == [] then 0.0 else PercentagesOf(cs[..|cs| - 1]) + cs[|cs| - 1].percentage
  }

  function MerchantTotalsOf(ms: seq<MerchantTotal>): real
  {
    if ms == [] then 0.0 else MerchantTotalsOf(ms[..|ms| - 1]) + ms[|ms| - 1].total
  }

  function CountsOf(ms: seq<MerchantTotal>): nat
  {
    if ms == [] then 0 else CountsOf(ms[..|ms| - 1]) + ms[|ms| - 1].count
  }

  /** `percentage` is the share of `total` that `amount` is, in percent. */
  ghost predicate IsShare(percentage: real, amount: real, total: real)
  {
    percentage * total == amount * 100.0
  }

  lemma CancelFactor(a: real, b: real, t: real)
    requires t != 0.0 && a * t == b * t
    ensures a == b
  {
    calc {
      a;
      a * t / t;
      b * t / t;
      b;
    }
  }

  /** `(amount / total) * 100.0` is the share of `total` that `amount` is. */
  lemma PercentageScales(amount: real, total: real)
    requires total != 0.0
    ensures IsShare(amount / total * 100.0, amount, total)
  {
    calc {
      (amount / total * 100.0) * total;
      (amount / total * total) * 100.0;
      { assert amount / total * total == amount; }
      amount * 100.0;
    }
  }

  /** One entry per category present, each with that category's sum and its share of
      `total`, sorted by sum. The division needs a nonzero `total` whenever some transaction
      has a category; with floats, a zero total would give NaN or infinite percentages. */
  method CalculateCategories(txs: seq<Transaction>, total: real) returns (categories: seq<CategoryTotal>)
    requires total != 0.0 || KeysOf(txs, CategoryKey) == {}
    ensures SortedDesc(categories, CategoryAmount)
    ensures DistinctBy(categories, CategoryName)
    ensures KeySet(categories, CategoryName) == KeysOf(txs, CategoryKey)
    ensures SumsOf(txs, categories)
    ensures SharesOf(categories, total)
    ensures TotalsOf(categories) == KeyedTotal(txs, CategoryKey)
    ensures total == KeyedTotal(txs, CategoryKey) && total != 0.0 ==> PercentagesOf(categories) == 100.0
  {
    var sums := SumByCategory(txs);
    var pairs := Drain(sums);
    if pairs != [] {
      assert PairKey(pairs[0]) in KeySet(pairs, PairKey);
    }
    var entries := CategoryEntries(pairs, total);
    EntriesOfPairs(pairs, total, sums, txs);
    categories := SortByTotal(entries, CategoryAmount);
    PermutationKeepsDistinct(entries, categories, CategoryName);
    PermutationKeepsKeys(entries, categories, CategoryName);
    PermutationKeepsSums(txs, entries, categories);
    PermutationKeepsShares(entries, categories, total);
    CategoryTotalsAddUp(txs, categories);
    if total == KeyedTotal(txs, CategoryKey) && total != 0.0 {
      PercentagesAddUp(categories, total);
    }
  }

  /** The accumulation loop: each category present, mapped to the sum of its amounts. */
  method SumByCategory(txs: seq<Transaction>) returns (sums: map<string, real>)
    ensures sums.Keys == KeysOf(txs, CategoryKey)
    ensures forall c :: c in sums ==> sums[c] == SumFor(txs, CategoryKey, c)
  {
    sums := map[];
    for i := 0 to |txs|
      invariant sums.Keys == KeysOf(txs[..i], CategoryKey)
      invariant forall c :: c in sums ==> sums[c] == SumFor(txs[..i], CategoryKey, c)
    {
      GroupStep(txs, CategoryKey, i);
      if txs[i].category.Some? {
        var c := txs[i].category.value;
        if c !in sums {
          KeyPresence(txs[..i], CategoryKey, c);
        }
        sums := sums[c := (if c in sums then sums[c] else 0.0) + txs[i].amount];
      }
    }
    assert txs[..|txs|] == txs;
  }

  /** `(category, amount)` to `CategoryTotal`, the closure of the `map` at main.rs:205-209. */
  function CategoryEntries(pairs: seq<(string, real)>, total: real): (entries: seq<CategoryTotal>)
    requires total != 0.0 || pairs == []
    ensures |entries| == |pairs|
    ensures forall j :: 0 <= j < |pairs| ==> entries[j].category == pairs[j].0 && entries[j].total == pairs[j].1
  {
    seq(|pairs|, j requires 0 <= j < |pairs| => CategoryTotal(pairs[j].0, pairs[j].1, (pairs[j].1 / total) * 100.0))
  }

  /** Each element has a distinct key that is in the map, and the map's value. */
  ghost predicate DrainedFrom<V>(pairs: seq<(string, V)>, m: map<string, V>)
  {
    && (forall j :: 0 <= j < |pairs| ==> pairs[j].0 in m && pairs[j].1 == m[pairs[j].0])
    && (forall i, j :: 0 <= i < j < |pairs| ==> pairs[i].0 != pairs[j].0)
  }

  function PairKey<V>(p: (string, V)): string { p.0 }

  /** `into_iter()` on the map: every entry once, keys in an order the model does not fix. */
  method Drain<V>(m: map<string, V>) returns (pairs: seq<(string, V)>)
    ensures DrainedFrom(pairs, m)
    ensures KeySet(pairs, PairKey) == m.Keys
  {
    var rest := m.Keys;
    pairs := [];
    while rest != {}
      invariant DrainedSoFar(pairs, rest, m)
      decreases |rest|
    {
      var k :| k in rest;
      DrainStep(pairs, rest, m, k);
      pairs := pairs + [(k, m[k])];
      rest := rest - {k};
    }
    assert forall i, j :: 0 <= i < j < |pairs| ==> PairKey(pairs[i]) != PairKey(pairs[j]);
  }

  /** The entries taken so far are the map's, with distinct keys, and the keys not yet taken
      are the rest. */
  ghost predicate DrainedSoFar<V>(pairs: seq<(string, V)>, rest: set<string>, m: map<string, V>)
  {
    && KeySet(pairs, PairKey) + rest == m.Keys
    && KeySet(pairs, PairKey) !! rest
    && DistinctBy(pairs, PairKey)
    && forall j :: 0 <= j < |pairs| ==> pairs[j].0 in m && pairs[j].1 == m[pairs[j].0]
  }

  lemma DrainStep<V>(pairs: seq<(string, V)>, rest: set<string>, m: map<string, V>, k: string)
    requires DrainedSoFar(pairs, rest, m) && k in rest
    ensures DrainedSoFar(pairs + [(k, m[k])], rest - {k}, m)
  {
    var ps := pairs + [(k, m[k])];
    AppendFresh(pairs, (k, m[k]), PairKey);
    assert forall j :: 0 <= j < |pairs| ==> ps[j] == pairs[j];
    assert ps[|pairs|] == (k, m[k]);
  }

  /** The entries built from the drained sums: one per category, each with its sum and share. */
  lemma EntriesOfPairs(pairs: seq<(string, real)>, total: real, sums: map<string, real>, txs: seq<Transaction>)
    requires total != 0.0 || pairs == []
    requires DrainedFrom(pairs, sums) && KeySet(pairs, PairKey) == sums.Keys
    requires sums.Keys == KeysOf(txs, CategoryKey)
    requires forall c :: c in sums ==> sums[c] == SumFor(txs, CategoryKey, c)
    ensures DistinctBy(CategoryEntries(pairs, total), CategoryName)
    ensures KeySet(CategoryEntries(pairs, total), CategoryName) == KeysOf(txs, CategoryKey)
    ensures SumsOf(txs, CategoryEntries(pairs, total))
    ensures SharesOf(CategoryEntries(pairs, total), total)
  {
    var es := CategoryEntries(pairs, total);
    assert KeySet(es, CategoryName) == KeySet(pairs, PairKey) by {
      assert forall j :: 0 <= j < |pairs| ==> CategoryName(es[j]) == PairKey(pairs[j]);
    }
    forall j | 0 <= j < |es| ensures IsShare(es[j].percentage, es[j].total, total) {
      PercentageScales(pairs[j].1, total);
    }
  }

  /** Each entry holds its category's sum. */
  ghost predicate SumsOf(txs: seq<Transaction>, cs: seq<CategoryTotal>)
  {
    forall j :: 0 <= j < |cs| ==> cs[j].total == SumFor(txs, CategoryKey, cs[j].category)
  }

  /** Each entry's percentage is its sum's share of `total`. */
  ghost predicate SharesOf(cs: seq<CategoryTotal>, total: real)
  {
    forall j :: 0 <= j < |cs| ==> IsShare(cs[j].percentage, cs[j].total, total)
  }

  lemma PermutationKeepsSums(txs: seq<Transaction>, xs: seq<CategoryTotal>, ys: seq<CategoryTotal>)
    requires multiset(ys) == multiset(xs)
    requires SumsOf(txs, xs)
    ensures SumsOf(txs, ys)
  {
    forall j | 0 <= j < |ys| ensures ys[j].total == SumFor(txs, CategoryKey, ys[j].category) {
      assert ys[j] in multiset(xs);
    }
  }

  lemma PermutationKeepsShares(xs: seq<CategoryTotal>, ys: seq<CategoryTotal>, total: real)
    requires multiset(ys) == multiset(xs)
    requires SharesOf(xs, total)
    ensures SharesOf(ys, total)
  {
    forall j | 0 <= j < |ys| ensures IsShare(ys[j].percentage, ys[j].total, total) {
      assert ys[j] in multiset(xs);
    }
  }

  /** The entries' sums add up to the categorised amount. */
  lemma CategoryTotalsAddUp(txs: seq<Transaction>, cs: seq<CategoryTotal>)
    requires DistinctBy(cs, CategoryName)
    requires KeySet(cs, CategoryName) == KeysOf(txs, CategoryKey)
    requires SumsOf(txs, cs)
    ensures TotalsOf(cs) == KeyedTotal(txs, CategoryKey)
  {
    CategorySums(txs, cs);
    WithinAllKeys(txs, CategoryKey, KeySet(cs, CategoryName));
  }

  /** Shares of a nonzero total that their sums add up to add up to 100. */
  lemma PercentagesAddUp(cs: seq<CategoryTotal>, total: real)
    requires SharesOf(cs, total)
    requires total != 0.0 && TotalsOf(cs) == total
    ensures PercentagesOf(cs) == 100.0
  {
    PercentagesScale(cs, total);
    CancelFactor(PercentagesOf(cs), 100.0, total);
  }

  lemma {:induction false} CategorySums(txs: seq<Transaction>, cs: seq<CategoryTotal>)
    requires DistinctBy(cs, CategoryName)
    requires SumsOf(txs, cs)
    ensures TotalsOf(cs) == SumWithin(txs, CategoryKey, KeySet(cs, CategoryName))
  {
    if cs == [] {
      assert KeySet(cs, CategoryName) == {};
      SumWithinNone(txs, CategoryKey);
    } else {
      var init := cs[..|cs| - 1];
      var c := cs[|cs| - 1].category;
      assert DistinctBy(init, CategoryName);
      CategorySums(txs, init);
      assert KeySet(cs, CategoryName) == KeySet(init, CategoryName) + {c};
      assert c !in KeySet(init, CategoryName);
      WithinAdd(txs, CategoryKey, KeySet(init, CategoryName), c);
    }
  }

  lemma {:induction false} PercentagesScale(cs: seq<CategoryTotal>, total: real)
    requires SharesOf(cs, total)
    ensures IsShare(PercentagesOf(cs), TotalsOf(cs), total)
  {
    if cs != [] {
      var init := cs[..|cs| - 1];
      assert forall j :: 0 <= j < |init| ==> init[j] == cs[j];
      PercentagesScale(init, total);
      var last := cs[|cs| - 1];
      calc {
        PercentagesOf(cs) * total;
        PercentagesOf(init) * total + last.percentage * total;
        TotalsOf(init) * 100.0 + last.total * 100.0;
        TotalsOf(cs) * 100.0;
      }
    }
  }

  /** What `find_top_merchants` promises of `top`: at most five merchants of the statement,
      distinct, sorted by sum, each with the sum and number of its transactions; a merchant left
      out has a sum no larger than any shown, and is left out only when five are shown; when there
      are at most five merchants, all are shown and their counts and sums cover the whole
      statement. */
  ghost predicate TopMerchantsOf(txs: seq<Transaction>, top: seq<MerchantTotal>)
  {
    && |top| <= 5
    && SortedDesc(top, MerchantAmount)
    && DistinctBy(top, MerchantName)
    && KeySet(top, MerchantName) <= KeysOf(txs, MerchantKey)
    && TalliesOf(txs, top)
    && (forall k :: k in KeysOf(txs, MerchantKey) && k !in KeySet(top, MerchantName) ==>
          |top| == 5 && forall j :: 0 <= j < |top| ==> top[j].total >= SumFor(txs, MerchantKey, k))
    && (|KeysOf(txs, MerchantKey)| <= 5 ==>
          KeySet(top, MerchantName) == KeysOf(txs, MerchantKey) &&
          CountsOf(top) == |txs| && MerchantTotalsOf(top) == Total(txs))
  }

  /** At most five merchants, each with the sum and number of its transactions, sorted by sum.
      A merchant left out has a sum no larger than any shown; when there are at most five
      merchants, all are shown and their counts and sums cover the whole statement. */
  method FindTopMerchants(txs: seq<Transaction>) returns (top: seq<MerchantTotal>)
    ensures TopMerchantsOf(txs, top)
  {
    var tally := TallyMerchants(txs);
    var pairs := Drain(tally);
    var entries := MerchantEntries(pairs);
    MerchantEntriesOfPairs(pairs, tally, txs);
    var ranked := SortByTotal(entries, MerchantAmount);
    PermutationKeepsDistinct(entries, ranked, MerchantName);
    PermutationKeepsKeys(entries, ranked, MerchantName);
    PermutationKeepsTallies(txs, entries, ranked);
    top := ranked;
    if |top| > 5 {
      top := top[..5];
    }
    TruncatedRanking(txs, ranked, top);
  }

  /** The accumulation loop: each merchant name, mapped to its sum and count. */
  method TallyMerchants(txs: seq<Transaction>) returns (tally: map<string, (real, nat)>)
    ensures tally.Keys == KeysOf(txs, MerchantKey)
    ensures forall k :: k in tally ==> tally[k] == (SumFor(txs, MerchantKey, k), CountFor(txs, MerchantKey, k))
  {
    tally := map[];
    for i := 0 to |txs|
      invariant Tallied(txs[..i], MerchantKey, tally)
    {
      var merchant := ExtractMerchantName(txs[i].description);
      var entry := if merchant in tally then tally[merchant] else (0.0, 0);
      assert MerchantKey(txs[i]) == Some(merchant);
      TallyStep(txs, MerchantKey, i, tally, merchant, entry);
      tally := tally[merchant := (entry.0 + txs[i].amount, entry.1 + 1)];
    }
    assert txs[..|txs|] == txs;
  }

  /** `(merchant, (total, count))` to `MerchantTotal`, the closure at main.rs:229-233. */
  function MerchantEntries(pairs: seq<(string, (real, nat))>): (entries: seq<MerchantTotal>)
    ensures |entries| == |pairs|
    ensures forall j :: 0 <= j < |pairs| ==>
              entries[j].merchant == pairs[j].0 && entries[j].total == pairs[j].1.0 && entries[j].count == pairs[j].1.1
  {
    seq(|pairs|, j requires 0 <= j < |pairs| => MerchantTotal(pairs[j].0, pairs[j].1.0, pairs[j].1.1))
  }

  /** Each entry holds its merchant's sum and count. */
  ghost predicate TalliesOf(txs: seq<Transaction>, ms: seq<MerchantTotal>)
  {
    forall j :: 0 <= j < |ms| ==>
      ms[j].total == SumFor(txs, MerchantKey, ms[j].merchant) &&
      ms[j].count == CountFor(txs, MerchantKey, ms[j].merchant)
  }

  lemma MerchantEntriesOfPairs(pairs: seq<(string, (real, nat))>, tally: map<string, (real, nat)>, txs: seq<Transaction>)
    requires DrainedFrom(pairs, tally) && KeySet(pairs, PairKey) == tally.Keys
    requires tally.Keys == KeysOf(txs, MerchantKey)
    requires forall k :: k in tally ==> tally[k] == (SumFor(txs, MerchantKey, k), CountFor(txs, MerchantKey, k))
    ensures DistinctBy(MerchantEntries(pairs), MerchantName)
    ensures KeySet(MerchantEntries(pairs), MerchantName) == KeysOf(txs, MerchantKey)
    ensures TalliesOf(txs, MerchantEntries(pairs))
  {
    var es := MerchantEntries(pairs);
    assert forall j :: 0 <= j < |pairs| ==> MerchantName(es[j]) == PairKey(pairs[j]);
    assert KeySet(es, MerchantName) == KeySet(pairs, PairKey);
  }

  lemma PermutationKeepsTallies(txs: seq<Transaction>, xs: seq<MerchantTotal>, ys: seq<MerchantTotal>)
    requires multiset(ys) == multiset(xs)
    requires TalliesOf(txs, xs)
    ensures TalliesOf(txs, ys)
  {
    forall j | 0 <= j < |ys|
      ensures ys[j].total == SumFor(txs, MerchantKey, ys[j].merchant)
      ensures ys[j].count == CountFor(txs, MerchantKey, ys[j].merchant)
    {
      assert ys[j] in multiset(xs);
    }
  }

  /** What `truncate(5)` keeps of the full ranking. */
  lemma TruncatedRanking(txs: seq<Transaction>, ranked: seq<MerchantTotal>, top: seq<MerchantTotal>)
    requires SortedDesc(ranked, MerchantAmount) && DistinctBy(ranked, MerchantName)
    requires KeySet(ranked, MerchantName) == KeysOf(txs, MerchantKey)
    requires TalliesOf(txs, ranked)
    requires top == if |ranked| > 5 then ranked[..5] else ranked
    ensures TopMerchantsOf(txs, top)
  {
    var n := |top|;
    assert top == ranked[..n];
    PrefixKeeps(ranked, n, MerchantName, MerchantAmount);
    assert forall j :: 0 <= j < n ==> top[j] == ranked[j];
    TruncatedExcluded(txs, ranked, top);
    DistinctKeyCount(ranked, MerchantName);
    if |KeysOf(txs, MerchantKey)| <= 5 {
      assert top == ranked;
      MerchantTotalsAddUp(txs, top);
    }
  }

  /** A merchant left out of the top five was beaten by all five shown. */
  lemma TruncatedExcluded(txs: seq<Transaction>, ranked: seq<MerchantTotal>, top: seq<MerchantTotal>)
    requires SortedDesc(ranked, MerchantAmount)
    requires KeySet(ranked, MerchantName) == KeysOf(txs, MerchantKey)
    requires TalliesOf(txs, ranked)
    requires top == if |ranked| > 5 then ranked[..5] else ranked
    ensures forall k :: k in KeysOf(txs, MerchantKey) && k !in KeySet(top, MerchantName) ==>
              |top| == 5 && forall j :: 0 <= j < |top| ==> top[j].total >= SumFor(txs, MerchantKey, k)
  {
    forall k | k in KeysOf(txs, MerchantKey) && k !in KeySet(top, MerchantName)
      ensures |top| == 5 && forall j :: 0 <= j < |top| ==> top[j].total >= SumFor(txs, MerchantKey, k)
    {
      var i :| 0 <= i < |ranked| && MerchantName(ranked[i]) == k;
      assert forall j :: 0 <= j < |top| ==> MerchantName(top[j]) in KeySet(top, MerchantName);
      assert forall j :: 0 <= j < |top| ==> top[j] == ranked[j] && MerchantName(ranked[j]) != k;
      assert i >= |top|;
      assert ranked[i].total == SumFor(txs, MerchantKey, k);
      forall j | 0 <= j < |top| ensures top[j].total >= SumFor(txs, MerchantKey, k) {
        assert top[j] == ranked[j];
        assert MerchantAmount(ranked[j]) >= MerchantAmount(ranked[i]);
      }
    }
  }

  /** Merchants covering every key account for the whole statement. */
  lemma MerchantTotalsAddUp(txs: seq<Transaction>, ms: seq<MerchantTotal>)
    requires DistinctBy(ms, MerchantName)
    requires KeySet(ms, MerchantName) == KeysOf(txs, MerchantKey)
    requires TalliesOf(txs, ms)
    ensures CountsOf(ms) == |txs| && MerchantTotalsOf(ms) == Total(txs)
  {
    MerchantSums(txs, ms);
    WithinAllKeys(txs, MerchantKey, KeySet(ms, MerchantName));
    KeyedIsEverything(txs, MerchantKey);
  }

  lemma {:induction false} MerchantSums(txs: seq<Transaction>, ms: seq<MerchantTotal>)
    requires DistinctBy(ms, MerchantName)
    requires TalliesOf(txs, ms)
    ensures MerchantTotalsOf(ms) == SumWithin(txs, MerchantKey, KeySet(ms, MerchantName))
    ensures CountsOf(ms) == CountWithin(txs, MerchantKey, KeySet(ms, MerchantName))
  {
    if ms == [] {
      assert KeySet(ms, MerchantName) == {};
      SumWithinNone(txs, MerchantKey);
    } else {
      var init := ms[..|ms| - 1];
      var m := ms[|ms| - 1].merchant;
      assert forall j :: 0 <= j < |init| ==> init[j] == ms[j];
      MerchantSums(txs, init);
      KeySetAppend(init, ms[|ms| - 1], MerchantName);
      assert ms == init + [ms[|ms| - 1]];
      assert m !in KeySet(init, MerchantName);
      WithinAdd(txs, MerchantKey, KeySet(init, MerchantName), m);
    }
  }

  lemma {:induction false} SumWithinNone(txs: seq<Transaction>, key: Transaction -> Option<string>)
    ensures SumWithin(txs, key, {}) == 0.0 && CountWithin(txs, key, {}) == 0
  {
    if txs != [] {
      SumWithinNone(txs[..|txs| - 1], key);
    }
  }
}
