/** Per-key sums and counts over a statement: what the `HashMap` accumulation loops of
    `calculate_categories` and `find_top_merchants` (main.rs, lines 197-201 and 219-225)
    compute, stated without a map. A key function returns None for a transaction that belongs
    to no group. */
module Grouping {
  import opened Wrappers
  import opened Types

  /** The keys that some transaction has. */
  ghost function KeysOf(txs: seq<Transaction>, key: Transaction -> Option<string>): set<string>
  {
    set i | 0 <= i < |txs| && key(txs[i]).Some? :: key(txs[i]).value
  }

  /** Sum of the amounts of the transactions with key `k`, in statement order. */
  ghost function SumFor(txs: seq<Transaction>, key: Transaction -> Option<string>, k: string): real
  {
    if txs == [] then 0.0
    else SumFor(txs[..|txs| - 1], key, k) + (if key(txs[|txs| - 1]) == Some(k) then txs[|txs| - 1].amount else 0.0)
  }

  /** Number of transactions with key `k`. */
  ghost function CountFor(txs: seq<Transaction>, key: Transaction -> Option<string>, k: string): nat
  {
    if txs == [] then 0
    else CountFor(txs[..|txs| - 1], key, k) + (if key(txs[|txs| - 1]) == Some(k) then 1 else 0)
  }

  /** Sum of the amounts of the transactions whose key lies in `ks`. */
  ghost function SumWithin(txs: seq<Transaction>, key: Transaction -> Option<string>, ks: set<string>): real
  {
    if txs == [] then 0.0
    else
      var t := txs[|txs| - 1];
      SumWithin(txs[..|txs| - 1], key, ks) + (if key(t).Some? && key(t).value in ks then t.amount else 0.0)
  }

  /** Number of transactions whose key lies in `ks`. */
  ghost function CountWithin(txs: seq<Transaction>, key: Transaction -> Option<string>, ks: set<string>): nat
  {
    if txs == [] then 0
    else
      var t := txs[|txs| - 1];
      CountWithin(txs[..|txs| - 1], key, ks) + (if key(t).Some? && key(t).value in ks then 1 else 0)
  }

  /** Sum of the amounts of the transactions that have a key. */
  ghost function KeyedTotal(txs: seq<Transaction>, key: Transaction -> Option<string>): real
  {
    if txs == [] then 0.0
    else KeyedTotal(txs[..|txs| - 1], key) + (if key(txs[|txs| - 1]).Some? then txs[|txs| - 1].amount else 0.0)
  }

  /** Number of transactions that have a key. */
  ghost function KeyedCount(txs: seq<Transaction>, key: Transaction -> Option<string>): nat
  {
    if txs == [] then 0
    else KeyedCount(txs[..|txs| - 1], key) + (if key(txs[|txs| - 1]).Some? then 1 else 0)
  }

  /** One more transaction: how the keys, sums and counts of a prefix grow. */
  lemma GroupStep(txs: seq<Transaction>, key: Transaction -> Option<string>, i: nat)
    requires i < |txs|
    ensures KeysOf(txs[..i + 1], key) ==
      KeysOf(txs[..i], key) + (if key(txs[i]).Some? then {key(txs[i]).value} else {})
    ensures forall k ::
              SumFor(txs[..i + 1], key, k) ==
              SumFor(txs[..i], key, k) + (if key(txs[i]) == Some(k) then txs[i].amount else 0.0)
    ensures forall k ::
              CountFor(txs[..i + 1], key, k) ==
              CountFor(txs[..i], key, k) + (if key(txs[i]) == Some(k) then 1 else 0)
  {
    var p := txs[..i + 1];
    assert p[..i] == txs[..i];
    assert p[i] == txs[i];
  }

  /** `tally` maps every key of `txs`, and nothing else, to its sum and count. */
  ghost predicate Tallied(txs: seq<Transaction>, key: Transaction -> Option<string>, tally: map<string, (real, nat)>)
  {
    && tally.Keys == KeysOf(txs, key)
    && forall k :: k in tally ==> tally[k] == (SumFor(txs, key, k), CountFor(txs, key, k))
  }

  /** Adding the next transaction's amount and one to its key's entry keeps the tally. */
  lemma TallyStep(txs: seq<Transaction>, key: Transaction -> Option<string>, i: nat,
                  tally: map<string, (real, nat)>, k: string, entry: (real, nat))
    requires i < |txs| && Tallied(txs[..i], key, tally)
    requires key(txs[i]) == Some(k)
    requires entry == if k in tally then tally[k] else (0.0, 0)
    ensures Tallied(txs[..i + 1], key, tally[k := (entry.0 + txs[i].amount, entry.1 + 1)])
  {
    GroupStep(txs, key, i);
    if k !in tally {
      KeyPresence(txs[..i], key, k);
    }
  }

  /** A key occurs exactly when some transaction counts towards it; an absent key sums to 0. */
  lemma {:induction false} KeyPresence(txs: seq<Transaction>, key: Transaction -> Option<string>, k: string)
    ensures k in KeysOf(txs, key) <==> CountFor(txs, key, k) > 0
    ensures k !in KeysOf(txs, key) ==> SumFor(txs, key, k) == 0.0
  {
    if txs != [] {
      var init := txs[..|txs| - 1];
      KeyPresence(init, key, k);
      assert KeysOf(txs, key) ==
        KeysOf(init, key) + (if key(txs[|txs| - 1]).Some? then {key(txs[|txs| - 1]).value} else {}) by {
        GroupStep(txs, key, |txs| - 1);
        assert txs[..|txs|] == txs;
      }
    }
  }

  /** Adding one key to a set adds that key's sum and count. */
  lemma {:induction false} WithinAdd(txs: seq<Transaction>, key: Transaction -> Option<string>, ks: set<string>, k: string)
    requires k !in ks
    ensures SumWithin(txs, key, ks + {k}) == SumWithin(txs, key, ks) + SumFor(txs, key, k)
    ensures CountWithin(txs, key, ks + {k}) == CountWithin(txs, key, ks) + CountFor(txs, key, k)
  {
    if txs != [] {
      WithinAdd(txs[..|txs| - 1], key, ks, k);
    }
  }

  /** A set of keys that covers every key present collects the keyed total and count. */
  lemma {:induction false} WithinAllKeys(txs: seq<Transaction>, key: Transaction -> Option<string>, ks: set<string>)
    requires KeysOf(txs, key) <= ks
    ensures SumWithin(txs, key, ks) == KeyedTotal(txs, key)
    ensures CountWithin(txs, key, ks) == KeyedCount(txs, key)
  {
    if txs != [] {
      var init := txs[..|txs| - 1];
      assert KeysOf(init, key) <= KeysOf(txs, key) by {
        forall k | k in KeysOf(init, key) ensures k in KeysOf(txs, key) {
          var i :| 0 <= i < |init| && key(init[i]).Some? && key(init[i]).value == k;
          assert txs[i] == init[i];
        }
      }
      if key(txs[|txs| - 1]).Some? {
        assert key(txs[|txs| - 1]).value in KeysOf(txs, key);
      }
      WithinAllKeys(init, key, ks);
    }
  }

  /** When every transaction has a key, the keyed total and count are the statement's. */
  lemma {:induction false} KeyedIsEverything(txs: seq<Transaction>, key: Transaction -> Option<string>)
    requires forall i :: 0 <= i < |txs| ==> key(txs[i]).Some?
    ensures KeyedTotal(txs, key) == Total(txs)
    ensures KeyedCount(txs, key) == |txs|
  {
    if txs != [] {
      var init := txs[..|txs| - 1];
      assert forall i :: 0 <= i < |init| ==> init[i] == txs[i];
      KeyedIsEverything(init, key);
    }
  }
}
