/**
 * Ascending order of a finite set of integers. It stands for the two places where
 * the source walks values in order: `sort_unstable_by` on the time vertices of a
 * station (whose times are pairwise distinct), and the iteration of a `BTreeMap`
 * by ascending key.
 */
module Ordering {

  predicate StrictlyIncreasing(s: seq<int>)
  {
    forall i, j :: 0 <= i < j < |s| ==> s[i] < s[j]
  }

  /** A set is empty or has an element; used before picking an element with `:|`. */
  lemma Inhabited<T>(s: set<T>)
    ensures s == {} || exists y :: y in s
  {
    if forall y :: y !in s {
      assert s == {};
    }
  }

  /** Some element of a non-empty set. */
  lemma Pick<T>(s: set<T>) returns (y: T)
    requires s != {}
    ensures y in s
  {
    Inhabited(s);
    y :| y in s;
  }

  /** The least element of a non-empty set. */
  function Min(s: set<int>): (m: int)
    requires s != {}
    ensures m in s && forall x :: x in s ==> m <= x
  {
    MinExists(s);
    var m :| m in s && forall x :: x in s ==> m <= x;
    m
  }

  lemma {:induction false} MinExists(s: set<int>)
    requires s != {}
    ensures exists m :: m in s && forall x :: x in s ==> m <= x
    decreases |s|
  {
    var y := Pick(s);
    if s != {y} {
      MinExists(s - {y});
      var m :| m in s - {y} && forall x :: x in s - {y} ==> m <= x;
      var least := if y < m then y else m;
      forall x | x in s ensures least <= x {
        if x != y { assert x in s - {y}; }
      }
    } else {
      assert forall x :: x in s ==> y <= x;
    }
  }

  /** The elements of `s` from smallest to largest. */
  function Ascending(s: set<int>): (r: seq<int>)
    ensures |r| == |s|
    ensures forall x :: x in s <==> x in r
    ensures StrictlyIncreasing(r)
    decreases |s|
  {
    if s == {} then []
    else
      var m := Min(s);
      var rest := Ascending(s - {m});
      AscendingStep(s, m, rest);
      [m] + rest
  }

  /** Putting the least element in front of the ascending rest gives the ascending whole. */
  lemma AscendingStep(s: set<int>, m: int, rest: seq<int>)
    requires m in s && forall x :: x in s ==> m <= x
    requires |rest| == |s - {m}| && StrictlyIncreasing(rest)
    requires forall x :: x in s - {m} <==> x in rest
    ensures |[m] + rest| == |s|
    ensures forall x :: x in s <==> x in [m] + rest
    ensures StrictlyIncreasing([m] + rest)
  {
    forall i, j | 0 <= i < j < |[m] + rest| ensures ([m] + rest)[i] < ([m] + rest)[j] {
      if i == 0 {
        assert ([m] + rest)[j] == rest[j - 1] && rest[j - 1] in s - {m};
      }
    }
  }

  /** In an increasing sequence that holds exactly the set `s`, no element of `s`
      lies strictly between two neighbours. */
  lemma {:induction false} NeighboursAreAdjacent(r: seq<int>, s: set<int>, k: nat, x: int)
    requires StrictlyIncreasing(r)
    requires forall y :: y in s <==> y in r
    requires k + 1 < |r|
    requires x in s
    ensures x <= r[k] || r[k + 1] <= x
  {
    var i :| 0 <= i < |r| && r[i] == x;
    if i < k {
      assert x < r[k];
    } else if k + 1 < i {
      assert r[k + 1] < x;
    }
  }

  /** Conversely, two elements of `s` with nothing of `s` between them are
      neighbours in the increasing sequence. */
  lemma {:induction false} AdjacentAreNeighbours(r: seq<int>, s: set<int>, a: int, b: int) returns (k: nat)
    requires StrictlyIncreasing(r)
    requires forall y :: y in s <==> y in r
    requires a in s && b in s && a < b
    requires forall x :: a < x < b ==> x !in s
    ensures k + 1 < |r| && r[k] == a && r[k + 1] == b
  {
    k :| 0 <= k < |r| && r[k] == a;
    var j :| 0 <= j < |r| && r[j] == b;
    assert k < j;
    assert r[k + 1] in s;
    assert b <= r[k + 1];
  }
}
