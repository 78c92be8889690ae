/** `categorize_description` and `categorize_transactions` (main.rs, lines 159-192): an ordered
    keyword table over the lower-cased description, where the first group that matches wins. */
module Categorize {
  import opened Wrappers
  import opened Text
  import opened Types

  const Other: string := "Other"

  /** The groups in the order the source tests them, each with its keywords. */
  const Rules: seq<(string, seq<string>)> := [
    ("Food & Dining", ["restaurant", "food", "starbucks", "mcdonald", "pizza", "cafe"]),
    ("Gas & Transportation", ["gas", "fuel", "shell", "chevron", "exxon", "uber", "lyft"]),
    ("Shopping", ["amazon", "target", "walmart", "store"]),
    ("Entertainment", ["netflix", "spotify", "movie", "entertainment"]),
    ("Healthcare", ["pharmacy", "medical", "doctor", "health"])
  ]

  /** The six labels a description can get. */
  const Labels: seq<string> := ["Food & Dining", "Gas & Transportation", "Shopping", "Entertainment", "Healthcare", "Other"]

  predicate MatchesAny(text: string, keywords: seq<string>)
  {
    exists k | k in keywords :: Contains(text, k)
  }

  /** The label of the first group with a keyword in `text`, or Other. */
  function FirstMatch(text: string, rules: seq<(string, seq<string>)>): string
  {
    if rules == [] then Other
    else if MatchesAny(text, rules[0].1) then rules[0].0
    else FirstMatch(text, rules[1..])
  }

  predicate DistinctLabels(rules: seq<(string, seq<string>)>)
  {
    && (forall i :: 0 <= i < |rules| ==> rules[i].0 != Other)
    && (forall i, j :: 0 <= i < j < |rules| ==> rules[i].0 != rules[j].0)
  }

  /** No group before position i matches. */
  predicate NoEarlierMatch(text: string, rules: seq<(string, seq<string>)>, i: int)
    requires 0 <= i <= |rules|
  {
    forall j :: 0 <= j < i ==> !MatchesAny(text, rules[j].1)
  }

  /** First match wins: the result is group i's label exactly when group i matches and no
      earlier group does, and it is Other exactly when no group matches. */
  lemma {:induction false} FirstMatchWins(text: string, rules: seq<(string, seq<string>)>)
    requires DistinctLabels(rules)
    ensures forall i :: 0 <= i < |rules| ==>
              (FirstMatch(text, rules) == rules[i].0 <==>
                 MatchesAny(text, rules[i].1) && NoEarlierMatch(text, rules, i))
    ensures FirstMatch(text, rules) == Other <==> NoEarlierMatch(text, rules, |rules|)
  {
    if rules != [] {
      var tail := rules[1..];
      assert forall i :: 0 <= i < |tail| ==> tail[i] == rules[i + 1];
      assert DistinctLabels(tail);
      FirstMatchWins(text, tail);
      FirstMatchIsALabel(text, tail);
      if MatchesAny(text, rules[0].1) {
        assert !NoEarlierMatch(text, rules, |rules|);
        forall i | 1 <= i < |rules| ensures !NoEarlierMatch(text, rules, i) {
        }
      } else {
        forall i | 1 <= i <= |rules|
          ensures NoEarlierMatch(text, rules, i) <==> NoEarlierMatch(text, tail, i - 1)
        {
          if NoEarlierMatch(text, tail, i - 1) {
            forall j | 0 <= j < i ensures !MatchesAny(text, rules[j].1) {
              if j > 0 { assert rules[j] == tail[j - 1]; }
            }
          }
        }
      }
    }
  }

  lemma RulesHaveDistinctLabels()
    ensures DistinctLabels(Rules)
    ensures forall i :: 0 <= i < |Rules| ==> Rules[i].0 == Labels[i]
    ensures |Labels| == |Rules| + 1 && Labels[|Rules|] == Other
  {
  }

  lemma {:induction false} FirstMatchIsALabel(text: string, rules: seq<(string, seq<string>)>)
    ensures FirstMatch(text, rules) == Other || exists i :: 0 <= i < |rules| && FirstMatch(text, rules) == rules[i].0
  {
    if rules != [] && !MatchesAny(text, rules[0].1) {
      FirstMatchIsALabel(text, rules[1..]);
      if FirstMatch(text, rules) != Other {
        var i :| 0 <= i < |rules[1..]| && FirstMatch(text, rules[1..]) == rules[1..][i].0;
        assert rules[i + 1] == rules[1..][i];
      }
    }
  }

  /** `categorize_description`: always one of the six labels. */
  function CategorizeDescription(description: string): (category: string)
    ensures category in Labels
  {
    FirstMatchIsALabel(Lower(description), Rules);
    RulesHaveDistinctLabels();
    FirstMatch(Lower(description), Rules)
  }

  /** Group i's label is chosen exactly when one of its keywords occurs in the lower-cased
      description and no keyword of an earlier group does; Other exactly when no keyword of any
      group occurs. */
  lemma CategorizeSpec(description: string)
    ensures var text, category := Lower(description), CategorizeDescription(description);
            && (forall i :: 0 <= i < |Rules| ==>
                  (category == Rules[i].0 <==> MatchesAny(text, Rules[i].1) && NoEarlierMatch(text, Rules, i)))
            && (category == Other <==> NoEarlierMatch(text, Rules, |Rules|))
  {
    RulesHaveDistinctLabels();
    FirstMatchWins(Lower(description), Rules);
  }

  /** Matching ignores case. */
  lemma CategorizeIgnoresCase(description: string)
    ensures CategorizeDescription(Upper(description)) == CategorizeDescription(description)
    ensures CategorizeDescription(Lower(description)) == CategorizeDescription(description)
  {
    LowerOfUpper(description);
    LowerOfLower(description);
  }

  /** Earlier groups win: a description with both a dining and a shopping keyword, such as
      "Pizza Store Downtown", is Food & Dining. */
  lemma DiningBeatsShopping(description: string)
    requires Contains(Lower(description), "pizza") && Contains(Lower(description), "store")
    ensures CategorizeDescription(description) == "Food & Dining"
  {
    assert "pizza" in Rules[0].1;
    assert MatchesAny(Lower(description), Rules[0].1);
  }

  /** `categorize_transactions`: each transaction, with its label attached. */
  function CategorizeTransactions(txs: seq<Transaction>): (r: seq<Transaction>)
    ensures |r| == |txs|
    ensures forall i :: 0 <= i < |r| ==>
              && r[i].date == txs[i].date && r[i].description == txs[i].description
              && r[i].amount == txs[i].amount
              && r[i].category == Some(CategorizeDescription(txs[i].description))
  {
    seq(|txs|, i requires 0 <= i < |txs| => txs[i].(category := Some(CategorizeDescription(txs[i].description))))
  }
}
