/** `sort_by` with a descending comparison on the totals (main.rs, lines 212 and 236), and what
    a permutation keeps of a sequence's keys. */
module Sorting {

  ghost predicate SortedDesc<T>(xs: seq<T>, total: T -> real)
  {
    forall i, j :: 0 <= i < j < |xs| ==> total(xs[i]) >= total(xs[j])
  }

  ghost predicate DistinctBy<T, K>(xs: seq<T>, key: T -> K)
  {
    forall i, j :: 0 <= i < j < |xs| ==> key(xs[i]) != key(xs[j])
  }

  ghost function KeySet<T, K>(xs: seq<T>, key: T -> K): set<K>
  {
    set i | 0 <= i < |xs| :: key(xs[i])
  }

  /** Sorts non-increasingly by `total`. Rust's sort is stable; since the order the entries
      arrive in is unspecified anyway, only the order by total and the permutation are
      promised. */
  method SortByTotal<T(==)>(xs: seq<T>, total: T -> real) returns (ys: seq<T>)
    ensures multiset(ys) == multiset(xs)
    ensures SortedDesc(ys, total)
  {
    ys := [];
    for n := 0 to |xs|
      invariant multiset(ys) == multiset(xs[..n])
      invariant SortedDesc(ys, total)
    {
      assert xs[..n + 1] == xs[..n] + [xs[n]];
      ys := Insert(ys, xs[n], total);
    }
    assert xs[..|xs|] == xs;
  }

  /** Inserts `x` after every element whose total is at least its own. */
  method Insert<T>(ys: seq<T>, x: T, total: T -> real) returns (zs: seq<T>)
    requires SortedDesc(ys, total)
    ensures multiset(zs) == multiset(ys) + multiset{x}
    ensures SortedDesc(zs, total)
  {
    var p := 0;
    while p < |ys| && total(ys[p]) >= total(x)
      invariant 0 <= p <= |ys|
      invariant forall k :: 0 <= k < p ==> total(ys[k]) >= total(x)
    {
      p := p + 1;
    }
    zs := ys[..p] + [x] + ys[p..];
    InsertKeepsOrder(ys, x, total, p);
    assert ys == ys[..p] + ys[p..];
  }

  lemma InsertKeepsOrder<T>(ys: seq<T>, x: T, total: T -> real, p: nat)
    requires SortedDesc(ys, total)
    requires p <= |ys|
    requires forall k :: 0 <= k < p ==> total(ys[k]) >= total(x)
    requires p < |ys| ==> total(ys[p]) < total(x)
    ensures SortedDesc(ys[..p] + [x] + ys[p..], total)
  {
    var zs := ys[..p] + [x] + ys[p..];
    forall i, j | 0 <= i < j < |zs| ensures total(zs[i]) >= total(zs[j]) {
      if j < p {
        assert zs[i] == ys[i] && zs[j] == ys[j];
      } else if j == p {
        assert zs[i] == ys[i];
      } else if i == p {
        assert zs[j] == ys[j - 1];
        assert total(ys[p]) >= total(ys[j - 1]) || j - 1 == p;
      } else if i < p {
        assert zs[i] == ys[i] && zs[j] == ys[j - 1];
      } else {
        assert zs[i] == ys[i - 1] && zs[j] == ys[j - 1];
      }
    }
  }

  lemma {:induction false} DistinctCount<T, K>(xs: seq<T>, key: T -> K, e: T)
    requires DistinctBy(xs, key)
    ensures multiset(xs)[e] <= 1
  {
    if xs != [] {
      var t := xs[1..];
      assert xs == [xs[0]] + t;
      assert DistinctBy(t, key) by {
        assert forall i :: 0 <= i < |t| ==> t[i] == xs[i + 1];
      }
      DistinctCount(t, key, e);
      if e == xs[0] {
        assert e !in t by {
          assert forall i :: 0 <= i < |t| ==> key(t[i]) != key(xs[0]);
        }
      }
    }
  }

  lemma TwiceCounted<T>(ys: seq<T>, i: nat, j: nat)
    requires i < j < |ys| && ys[i] == ys[j]
    ensures multiset(ys)[ys[i]] >= 2
  {
    assert ys == ys[..j] + ys[j..];
    assert ys[i] in ys[..j];
    assert ys[j] in ys[j..];
  }

  /** A permutation of a sequence with distinct keys has distinct keys. */
  lemma PermutationKeepsDistinct<T, K>(xs: seq<T>, ys: seq<T>, key: T -> K)
    requires multiset(ys) == multiset(xs)
    requires DistinctBy(xs, key)
    ensures DistinctBy(ys, key)
  {
    forall i, j | 0 <= i < j < |ys| ensures key(ys[i]) != key(ys[j]) {
      if key(ys[i]) == key(ys[j]) {
        assert ys[i] in multiset(xs) && ys[j] in multiset(xs);
        var a :| 0 <= a < |xs| && xs[a] == ys[i];
        var b :| 0 <= b < |xs| && xs[b] == ys[j];
        assert a == b;
        TwiceCounted(ys, i, j);
        DistinctCount(xs, key, ys[i]);
        assert false;
      }
    }
  }

  /** A permutation has the same keys. */
  lemma PermutationKeepsKeys<T, K>(xs: seq<T>, ys: seq<T>, key: T -> K)
    requires multiset(ys) == multiset(xs)
    ensures KeySet(ys, key) == KeySet(xs, key)
  {
    forall k | k in KeySet(ys, key) ensures k in KeySet(xs, key) {
      var j :| 0 <= j < |ys| && key(ys[j]) == k;
      assert ys[j] in multiset(xs);
      var a :| 0 <= a < |xs| && xs[a] == ys[j];
    }
    forall k | k in KeySet(xs, key) ensures k in KeySet(ys, key) {
      var j :| 0 <= j < |xs| && key(xs[j]) == k;
      assert xs[j] in multiset(ys);
      var a :| 0 <= a < |ys| && ys[a] == xs[j];
    }
  }

  /** A prefix of a sorted sequence with distinct keys is sorted, has distinct keys, and has
      only keys of the whole. */
  lemma PrefixKeeps<T, K>(xs: seq<T>, n: nat, key: T -> K, total: T -> real)
    requires n <= |xs| && SortedDesc(xs, total) && DistinctBy(xs, key)
    ensures SortedDesc(xs[..n], total) && DistinctBy(xs[..n], key)
    ensures KeySet(xs[..n], key) <= KeySet(xs, key)
  {
    assert forall j :: 0 <= j < n ==> xs[..n][j] == xs[j];
  }

  lemma KeySetAppend<T, K>(xs: seq<T>, x: T, key: T -> K)
    ensures KeySet(xs + [x], key) == KeySet(xs, key) + {key(x)}
  {
    var ys := xs + [x];
    assert forall i :: 0 <= i < |xs| ==> ys[i] == xs[i];
    assert ys[|xs|] == x;
  }

  /** Appending an element with a new key keeps the keys distinct. */
  lemma AppendFresh<T, K>(xs: seq<T>, x: T, key: T -> K)
    requires DistinctBy(xs, key)
    requires key(x) !in KeySet(xs, key)
    ensures DistinctBy(xs + [x], key)
    ensures KeySet(xs + [x], key) == KeySet(xs, key) + {key(x)}
  {
    KeySetAppend(xs, x, key);
    var ys := xs + [x];
    forall i, j | 0 <= i < j < |ys| ensures key(ys[i]) != key(ys[j]) {
      if j == |xs| {
        assert key(ys[i]) in KeySet(xs, key);
      }
    }
  }

  /** A sequence with distinct keys has as many keys as elements. */
  lemma {:induction false} DistinctKeyCount<T, K>(xs: seq<T>, key: T -> K)
    requires DistinctBy(xs, key)
    ensures |KeySet(xs, key)| == |xs|
  {
    if xs != [] {
      var init := xs[..|xs| - 1];
      assert DistinctBy(init, key);
      DistinctKeyCount(init, key);
      assert KeySet(xs, key) == KeySet(init, key) + {key(xs[|xs| - 1])};
      assert key(xs[|xs| - 1]) !in KeySet(init, key);
    }
  }
}
