/** Keeping the elements of a sequence that a choice function accepts, in order: the shape of
    the record loop in `parse_csv` once its error exits are set aside. */
module Selection {
  import opened Wrappers

  /** The values `pick` gives for the elements it accepts, in input order. */
  function Select<T, U>(xs: seq<T>, pick: T -> Option<U>): seq<U>
  {
    if xs == [] then []
    else if pick(xs[0]).Some? then [pick(xs[0]).value] + Select(xs[1..], pick)
    else Select(xs[1..], pick)
  }

  /** The positions, from `start` on, of the elements `pick` accepts, in increasing order. */
  ghost function PositionsFrom<T, U>(xs: seq<T>, pick: T -> Option<U>, start: nat): seq<nat>
    requires start <= |xs|
    decreases |xs| - start
  {
    if start == |xs| then []
    else if pick(xs[start]).Some? then [start] + PositionsFrom(xs, pick, start + 1)
    else PositionsFrom(xs, pick, start + 1)
  }

  /** Each listed position is in range, accepted, and later than the ones before it. */
  lemma {:induction false} PositionsIncrease<T, U>(xs: seq<T>, pick: T -> Option<U>, start: nat)
    requires start <= |xs|
    ensures forall j :: 0 <= j < |PositionsFrom(xs, pick, start)| ==>
              start <= PositionsFrom(xs, pick, start)[j] < |xs|
              && pick(xs[PositionsFrom(xs, pick, start)[j]]).Some?
    ensures forall j, k :: 0 <= j < k < |PositionsFrom(xs, pick, start)| ==>
              PositionsFrom(xs, pick, start)[j] < PositionsFrom(xs, pick, start)[k]
    decreases |xs| - start
  {
    if start < |xs| {
      PositionsIncrease(xs, pick, start + 1);
    }
  }

  /** The j-th selected value comes from the element at the j-th listed position. */
  lemma {:induction false} SelectAtPositions<T, U>(xs: seq<T>, pick: T -> Option<U>, start: nat)
    requires start <= |xs|
    ensures |PositionsFrom(xs, pick, start)| == |Select(xs[start..], pick)|
    ensures forall j :: 0 <= j < |PositionsFrom(xs, pick, start)| ==>
              start <= PositionsFrom(xs, pick, start)[j] < |xs|
              && pick(xs[PositionsFrom(xs, pick, start)[j]]).Some?
              && Select(xs[start..], pick)[j] == pick(xs[PositionsFrom(xs, pick, start)[j]]).value
    decreases |xs| - start
  {
    if start < |xs| {
      SelectAtPositions(xs, pick, start + 1);
      assert xs[start..][1..] == xs[start + 1..];
      assert xs[start..][0] == xs[start];
    }
  }

  /** Every accepted element from `start` on is listed. */
  lemma {:induction false} PositionsComplete<T, U>(xs: seq<T>, pick: T -> Option<U>, start: nat)
    requires start <= |xs|
    ensures forall i :: start <= i < |xs| && pick(xs[i]).Some? ==> i in PositionsFrom(xs, pick, start)
    decreases |xs| - start
  {
    if start < |xs| {
      PositionsComplete(xs, pick, start + 1);
    }
  }

  /** The positions, from `start` on, of the elements `pick` accepts, as a set. */
  ghost function Accepted<T, U>(xs: seq<T>, pick: T -> Option<U>, start: nat): set<nat>
  {
    set i: nat | start <= i < |xs| && pick(xs[i]).Some?
  }

  /** There are as many listed positions as accepted elements from `start` on. */
  lemma {:induction false} PositionsCount<T, U>(xs: seq<T>, pick: T -> Option<U>, start: nat)
    requires start <= |xs|
    ensures |PositionsFrom(xs, pick, start)| == |Accepted(xs, pick, start)|
    decreases |xs| - start
  {
    if start < |xs| {
      PositionsCount(xs, pick, start + 1);
      if pick(xs[start]).Some? {
        assert Accepted(xs, pick, start) == {start} + Accepted(xs, pick, start + 1);
      } else {
        assert Accepted(xs, pick, start) == Accepted(xs, pick, start + 1);
      }
    } else {
      assert Accepted(xs, pick, start) == {};
    }
  }
}
