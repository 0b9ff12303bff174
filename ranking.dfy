/**
 * The ranking step of `top_merchants`: `sorted(items, key=total, reverse=True)`,
 * which is stable, followed by the slice `[:top_n]`.
 */
module Ranking {
  import opened Tallies

  /** Totals never increase from left to right. */
  predicate SortedByTotal(s: Tally) {
    forall i, j | 0 <= i < j < |s| :: s[i].1 >= s[j].1
  }

  /** The entries of `s` whose total is `v`, in their order in `s`. */
  function WithTotal(s: Tally, v: real): Tally {
    if s == [] then [] else (if s[0].1 == v then [s[0]] else []) + WithTotal(s[1..], v)
  }

  lemma {:induction false} WithTotalAppend(a: Tally, b: Tally, v: real)
    ensures WithTotal(a + b, v) == WithTotal(a, v) + WithTotal(b, v)
  {
    if a != [] {
      assert (a + b)[1..] == a[1..] + b;
      WithTotalAppend(a[1..], b, v);
    } else {
      assert a + b == b;
    }
  }

  /** Inserts `x` after every entry whose total is at least `x`'s, before the first smaller one. */
  function InsertByTotal(s: Tally, x: (string, real)): (r: Tally)
    ensures |r| == |s| + 1
    ensures multiset(r) == multiset(s) + multiset{x}
  {
    if s == [] then [x]
    else if s[0].1 >= x.1 then
      assert s == [s[0]] + s[1..];
      [s[0]] + InsertByTotal(s[1..], x)
    else
      [x] + s
  }

  /** Inserting into a sorted list gives a sorted list. */
  lemma {:induction false} InsertSorted(s: Tally, x: (string, real))
    requires SortedByTotal(s)
    ensures SortedByTotal(InsertByTotal(s, x))
  {
    if s != [] && s[0].1 >= x.1 {
      var rest := InsertByTotal(s[1..], x);
      InsertSorted(s[1..], x);
      assert s == [s[0]] + s[1..];
      forall i | 0 <= i < |rest| ensures s[0].1 >= rest[i].1 {
        assert rest[i] in multiset(s[1..]) + multiset{x};
        if rest[i] in s[1..] {
          var j :| 0 <= j < |s[1..]| && s[1..][j] == rest[i];
          assert s[j + 1] == rest[i];
        }
      }
    }
  }

  /** Inserting into a sorted list puts `x` after every entry of equal total. */
  lemma {:induction false} InsertStable(s: Tally, x: (string, real), v: real)
    requires SortedByTotal(s)
    ensures WithTotal(InsertByTotal(s, x), v) == WithTotal(s, v) + (if x.1 == v then [x] else [])
  {
    if s == [] {
    } else if s[0].1 >= x.1 {
      InsertStable(s[1..], x, v);
      assert ([s[0]] + InsertByTotal(s[1..], x))[1..] == InsertByTotal(s[1..], x);
    } else {
      // Every entry of s is smaller than x, so none of them has x's total.
      assert ([x] + s)[1..] == s;
      if x.1 == v {
        WithTotalNone(s, v);
      }
    }
  }

  /** No entry has total `v` when all are below it. */
  lemma {:induction false} WithTotalNone(s: Tally, v: real)
    requires forall i | 0 <= i < |s| :: s[i].1 < v
    ensures WithTotal(s, v) == []
  {
    if s != [] {
      WithTotalNone(s[1..], v);
    }
  }

  /** `sorted(s, key=total, reverse=True)`, as insertion of each entry in turn. */
  function SortByTotal(s: Tally): (r: Tally)
    ensures |r| == |s|
    ensures multiset(r) == multiset(s)
    ensures SortedByTotal(r)
  {
    if s == [] then []
    else
      var init := s[..|s| - 1];
      assert s == init + [s[|s| - 1]];
      InsertSorted(SortByTotal(init), s[|s| - 1]);
      InsertByTotal(SortByTotal(init), s[|s| - 1])
  }

  /** The sort is stable: entries of equal total keep their relative order. */
  lemma {:induction false} SortByTotalStable(s: Tally, v: real)
    ensures WithTotal(SortByTotal(s), v) == WithTotal(s, v)
  {
    if s != [] {
      var init, x := s[..|s| - 1], s[|s| - 1];
      assert s == init + [x];
      calc {
        WithTotal(SortByTotal(s), v);
        WithTotal(InsertByTotal(SortByTotal(init), x), v);
        { InsertStable(SortByTotal(init), x, v); }
        WithTotal(SortByTotal(init), v) + (if x.1 == v then [x] else []);
        { SortByTotalStable(init, v); }
        WithTotal(init, v) + (if x.1 == v then [x] else []);
        { assert WithTotal([x], v) == (if x.1 == v then [x] else []) + WithTotal([], v); }
        WithTotal(init, v) + WithTotal([x], v);
        { WithTotalAppend(init, [x], v); }
        WithTotal(s, v);
      }
    }
  }

  /** Python's slice `s[:n]`: the first n elements, or all but the last -n when n is negative. */
  function SliceTo<T>(s: seq<T>, n: int): (r: seq<T>)
    ensures |r| <= |s| && r == s[..|r|]
    ensures 0 <= n ==> |r| == if n < |s| then n else |s|
    ensures n < 0 ==> |r| == if -n < |s| then |s| + n else 0
  {
    if 0 <= n then (if n < |s| then s[..n] else s)
    else (if -n < |s| then s[..|s| + n] else [])
  }
}
