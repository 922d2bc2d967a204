/** `Array.prototype.sort` with a comparator that orders by a two-level rank.
    The sort is stable (ECMAScript 2019 and later), and the comparators used by the ad
    loaders are total preorders, so the result is fixed: the rank-sorted arrangement
    that keeps every group of equal-rank elements in input order. It is modelled as a
    stable insertion sort. */
module StableSort {

  /** Compared lexicographically: first component, then second. */
  type Rank = (int, int)

  predicate RankLe(a: Rank, b: Rank) {
    a.0 < b.0 || (a.0 == b.0 && a.1 <= b.1)
  }

  predicate Sorted<T>(s: seq<T>, rank: T -> Rank) {
    forall i, j :: 0 <= i < j < |s| ==> RankLe(rank(s[i]), rank(s[j]))
  }

  /** Consing an element that ranks no higher than the head keeps a list sorted. */
  lemma SortedCons<T>(a: T, t: seq<T>, rank: T -> Rank)
    requires Sorted(t, rank) && (|t| == 0 || RankLe(rank(a), rank(t[0])))
    ensures Sorted([a] + t, rank)
  {
    var u := [a] + t;
    forall i, j | 0 <= i < j < |u| ensures RankLe(rank(u[i]), rank(u[j])) {
      if i == 0 {
        assert u[j] == t[j - 1];
        if j > 1 {
          assert RankLe(rank(t[0]), rank(t[j - 1]));
        }
      } else {
        assert u[i] == t[i - 1] && u[j] == t[j - 1];
      }
    }
  }

  /** Put `x` in front of the first element that does not rank below it. */
  function Insert<T>(x: T, s: seq<T>, rank: T -> Rank): (r: seq<T>)
    requires Sorted(s, rank)
    ensures Sorted(r, rank)
    ensures multiset(r) == multiset(s) + multiset{x}
    ensures |r| == |s| + 1 && (r[0] == x || (|s| > 0 && r[0] == s[0]))
  {
    if |s| == 0 then [x]
    else if RankLe(rank(x), rank(s[0])) then
      SortedCons(x, s, rank);
      [x] + s
    else
      assert Sorted(s[1..], rank) by {
        forall i, j | 0 <= i < j < |s| - 1 ensures RankLe(rank(s[1..][i]), rank(s[1..][j])) {
          assert s[1..][i] == s[i + 1] && s[1..][j] == s[j + 1];
        }
      }
      var t := Insert(x, s[1..], rank);
      assert RankLe(rank(s[0]), rank(t[0])) by {
        if t[0] != x {
          assert t[0] == s[1] && RankLe(rank(s[0]), rank(s[1]));
        }
      }
      SortedCons(s[0], t, rank);
      assert multiset([s[0]] + t) == multiset{s[0]} + multiset(t);
      assert multiset(s) == multiset{s[0]} + multiset(s[1..]) by {
        assert s == [s[0]] + s[1..];
      }
      [s[0]] + t
  }

  /** Sort by rank, keeping equal-rank elements in input order. */
  function Sort<T>(s: seq<T>, rank: T -> Rank): (r: seq<T>)
    ensures Sorted(r, rank)
    ensures multiset(r) == multiset(s)
  {
    if |s| == 0 then []
    else
      assert s == [s[0]] + s[1..];
      Insert(s[0], Sort(s[1..], rank), rank)
  }

  /** The elements of `s` whose rank is `k`, in order. */
  function Tie<T>(s: seq<T>, rank: T -> Rank, k: Rank): seq<T> {
    if |s| == 0 then [] else (if rank(s[0]) == k then [s[0]] else []) + Tie(s[1..], rank, k)
  }

  lemma TieCons<T>(a: T, t: seq<T>, rank: T -> Rank, k: Rank)
    ensures Tie([a] + t, rank, k) == (if rank(a) == k then [a] else []) + Tie(t, rank, k)
  {
    assert ([a] + t)[0] == a && ([a] + t)[1..] == t;
  }

  lemma {:induction false} InsertTie<T>(x: T, s: seq<T>, rank: T -> Rank, k: Rank)
    requires Sorted(s, rank)
    ensures Tie(Insert(x, s, rank), rank, k) == (if rank(x) == k then [x] else []) + Tie(s, rank, k)
    decreases |s|
  {
    if |s| == 0 {
      TieCons(x, [], rank, k);
    } else if RankLe(rank(x), rank(s[0])) {
      TieCons(x, s, rank, k);
    } else {
      var t := Insert(x, s[1..], rank);
      assert Sorted(s[1..], rank);
      InsertTie(x, s[1..], rank, k);
      assert Insert(x, s, rank) == [s[0]] + t;
      TieCons(s[0], t, rank, k);
      TieCons(s[0], s[1..], rank, k);
      assert s == [s[0]] + s[1..];
      var hx: seq<T> := if rank(x) == k then [x] else [];
      var h0: seq<T> := if rank(s[0]) == k then [s[0]] else [];
      assert h0 == [] || hx == [];
      assert h0 + (hx + Tie(s[1..], rank, k)) == hx + (h0 + Tie(s[1..], rank, k));
    }
  }

  /** Stability: sorting leaves every group of equal-rank elements in input order. */
  lemma {:induction false} SortStable<T>(s: seq<T>, rank: T -> Rank, k: Rank)
    ensures Tie(Sort(s, rank), rank, k) == Tie(s, rank, k)
  {
    if |s| > 0 {
      SortStable(s[1..], rank, k);
      InsertTie(s[0], Sort(s[1..], rank), rank, k);
    }
  }

  /** An input already in rank order comes back unchanged. */
  lemma {:induction false} SortOfSorted<T>(s: seq<T>, rank: T -> Rank)
    requires Sorted(s, rank)
    ensures Sort(s, rank) == s
  {
    if |s| > 0 {
      assert Sorted(s[1..], rank);
      SortOfSorted(s[1..], rank);
      assert s == [s[0]] + s[1..];
    }
  }
}
