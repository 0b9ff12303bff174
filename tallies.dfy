/**
 * The running totals the reports build in a `defaultdict(float)`. A Python dict
 * keeps its keys in first-insertion order, and that order decides ties in the
 * merchant ranking, so a tally is a sequence of (key, total) pairs.
 */
module Tallies {

  type Tally = seq<(string, real)>

  predicate HasKey(t: Tally, k: string) {
    exists i | 0 <= i < |t| :: t[i].0 == k
  }

  /** No key occurs twice, as in a dict. */
  predicate DistinctKeys(t: Tally) {
    forall i, j | 0 <= i < j < |t| :: t[i].0 != t[j].0
  }

  /** `d[k]` on a defaultdict(float): the key's total, 0.0 when it is absent. */
  function Get(t: Tally, k: string): real {
    if t == [] then 0.0 else if t[0].0 == k then t[0].1 else Get(t[1..], k)
  }

  function SumValues(t: Tally): real {
    if t == [] then 0.0 else t[0].1 + SumValues(t[1..])
  }

  /**
   * `d[k] += v` on a defaultdict(float): an existing key keeps its place and gains
   * `v`; a new key is appended with total `0.0 + v`; nothing else changes.
   */
  function Add(t: Tally, k: string, v: real): (r: Tally)
    ensures HasKey(t, k) ==> |r| == |t|
    ensures !HasKey(t, k) ==> r == t + [(k, v)]
    ensures forall i | 0 <= i < |t| :: r[i].0 == t[i].0
    ensures forall i | 0 <= i < |t| && t[i].0 != k :: r[i] == t[i]
  {
    if t == [] then [(k, v)]
    else if t[0].0 == k then [(k, t[0].1 + v)] + t[1..]
    else
      var rest := Add(t[1..], k, v);
      assert HasKey(t[1..], k) ==> HasKey(t, k) by {
        if HasKey(t[1..], k) {
          var i :| 0 <= i < |t[1..]| && t[1..][i].0 == k;
          assert t[i + 1].0 == k;
        }
      }
      [t[0]] + rest
  }

  /** After `d[k] += v` the keys are the old keys and `k`. */
  lemma AddKeys(t: Tally, k: string, v: real, j: string)
    ensures HasKey(Add(t, k, v), j) <==> HasKey(t, j) || j == k
  {
    var r := Add(t, k, v);
    if HasKey(t, k) {
      if HasKey(r, j) {
        var i :| 0 <= i < |r| && r[i].0 == j;
        assert t[i].0 == j;
      }
      if HasKey(t, j) {
        var i :| 0 <= i < |t| && t[i].0 == j;
        assert r[i].0 == j;
      }
    } else {
      assert r[|t|].0 == k;
      if HasKey(r, j) && j != k {
        var i :| 0 <= i < |r| && r[i].0 == j;
        assert t[i].0 == j;
      }
      if HasKey(t, j) {
        var i :| 0 <= i < |t| && t[i].0 == j;
        assert r[i].0 == j;
      }
    }
  }

  /** `d[k] += v` raises the total of `k` by `v` and leaves every other key's total alone. */
  lemma {:induction false} AddGet(t: Tally, k: string, v: real, j: string)
    ensures Get(Add(t, k, v), j) == Get(t, j) + (if j == k then v else 0.0)
  {
    if t != [] && t[0].0 != k {
      AddGet(t[1..], k, v, j);
    }
  }

  /** `d[k] += v` raises the sum of all totals by `v`. */
  lemma {:induction false} AddSum(t: Tally, k: string, v: real)
    ensures SumValues(Add(t, k, v)) == SumValues(t) + v
  {
    if t != [] && t[0].0 != k {
      AddSum(t[1..], k, v);
    }
  }

  /** In a tally with distinct keys, each entry's total is what `Get` returns for its key. */
  lemma {:induction false} GetDistinct(t: Tally, i: nat)
    requires DistinctKeys(t) && i < |t|
    ensures Get(t, t[i].0) == t[i].1
  {
    if i > 0 {
      GetDistinct(t[1..], i - 1);
    }
  }

  /** Adding to a tally with distinct keys keeps them distinct. */
  lemma AddKeepsDistinct(t: Tally, k: string, v: real)
    requires DistinctKeys(t)
    ensures DistinctKeys(Add(t, k, v))
  {
    var r := Add(t, k, v);
    if !HasKey(t, k) {
      assert forall i | 0 <= i < |t| :: t[i].0 != k;
    }
  }

  /** Adding a positive amount keeps every total positive. */
  lemma AddKeepsPositive(t: Tally, k: string, v: real)
    requires forall i | 0 <= i < |t| :: t[i].1 > 0.0
    requires v > 0.0
    ensures forall i | 0 <= i < |Add(t, k, v)| :: Add(t, k, v)[i].1 > 0.0
  {
    var r := Add(t, k, v);
    if HasKey(t, k) {
      forall i | 0 <= i < |r| ensures r[i].1 > 0.0 {
        if t[i].0 == k {
          // Add updates the first occurrence of k; r[i] is either t[i] or t[i] plus v.
          AddEntry(t, k, v, i);
        }
      }
    }
  }

  /** Each entry of `Add(t, k, v)` is the old entry, possibly with `v` added to its total. */
  lemma {:induction false} AddEntry(t: Tally, k: string, v: real, i: nat)
    requires i < |t|
    ensures Add(t, k, v)[i] == t[i] || Add(t, k, v)[i] == (t[i].0, t[i].1 + v)
  {
    var r := Add(t, k, v);
    if t[0].0 == k {
      assert r == [(k, t[0].1 + v)] + t[1..];
    } else if i > 0 {
      assert r == [t[0]] + Add(t[1..], k, v);
      AddEntry(t[1..], k, v, i - 1);
    }
  }

  // ---------------------------------------------------------------------------
  // The accumulation loop shared by spend_by_category and top_merchants.
  // ---------------------------------------------------------------------------

  function Abs(x: real): real {
    if x < 0.0 then -x else x
  }

  /** `for (key, amount) in entries: if amount < 0: d[key] += abs(amount)`, run from an empty dict. */
  function NegativeTally(entries: seq<(string, real)>): Tally {
    if entries == [] then []
    else
      var p := NegativeTally(entries[..|entries| - 1]);
      var (k, a) := entries[|entries| - 1];
      if a < 0.0 then Add(p, k, Abs(a)) else p
  }

  /** The loop step: entry k, holding `key` and `amount`, updates the tally of the entries before it. */
  lemma NegativeTallyStep(entries: seq<(string, real)>, k: nat, key: string, amount: real)
    requires k < |entries| && entries[k] == (key, amount)
    ensures NegativeTally(entries[..k + 1]) == if amount < 0.0 then Add(NegativeTally(entries[..k]), key, Abs(amount)) else NegativeTally(entries[..k])
  {
    assert entries[..k + 1][..k] == entries[..k];
  }

  /** Reference: the total absolute amount of the negative entries under key `k`. */
  function SpendOn(entries: seq<(string, real)>, k: string): real {
    if entries == [] then 0.0
    else
      var (key, a) := entries[|entries| - 1];
      SpendOn(entries[..|entries| - 1], k) + (if key == k && a < 0.0 then -a else 0.0)
  }

  /** Reference: the total absolute amount of all negative entries. */
  function TotalSpend(entries: seq<(string, real)>): real {
    if entries == [] then 0.0
    else
      var a := entries[|entries| - 1].1;
      TotalSpend(entries[..|entries| - 1]) + (if a < 0.0 then -a else 0.0)
  }

  /** Some entry under key `k` is negative. */
  predicate SpentOn(entries: seq<(string, real)>, k: string) {
    exists i | 0 <= i < |entries| :: entries[i].0 == k && entries[i].1 < 0.0
  }

  /** The keys of the tally are exactly the keys with at least one negative entry. */
  lemma {:induction false} NegativeTallyKeys(entries: seq<(string, real)>, k: string)
    ensures HasKey(NegativeTally(entries), k) <==> SpentOn(entries, k)
  {
    if entries != [] {
      var init := entries[..|entries| - 1];
      NegativeTallyKeys(init, k);
      assert forall i | 0 <= i < |init| :: init[i] == entries[i];
      var (key, a) := entries[|entries| - 1];
      if a < 0.0 {
        AddKeys(NegativeTally(init), key, Abs(a), k);
      }
      if SpentOn(entries, k) && !SpentOn(init, k) {
        assert entries[|entries| - 1].0 == k && entries[|entries| - 1].1 < 0.0;
      }
    }
  }

  /** The tally has distinct keys, each with a total above zero. */
  lemma {:induction false} NegativeTallyShape(entries: seq<(string, real)>)
    ensures DistinctKeys(NegativeTally(entries))
    ensures forall i | 0 <= i < |NegativeTally(entries)| :: NegativeTally(entries)[i].1 > 0.0
  {
    if entries != [] {
      var init := entries[..|entries| - 1];
      NegativeTallyShape(init);
      var (k, a) := entries[|entries| - 1];
      if a < 0.0 {
        AddKeepsDistinct(NegativeTally(init), k, Abs(a));
        AddKeepsPositive(NegativeTally(init), k, Abs(a));
      }
    }
  }

  /** Each key's total is the sum of `abs(amount)` over that key's negative entries. */
  lemma {:induction false} NegativeTallyValues(entries: seq<(string, real)>, k: string)
    ensures Get(NegativeTally(entries), k) == SpendOn(entries, k)
  {
    if entries != [] {
      var init := entries[..|entries| - 1];
      NegativeTallyValues(init, k);
      var (key, a) := entries[|entries| - 1];
      if a < 0.0 {
        AddGet(NegativeTally(init), key, Abs(a), k);
      }
    }
  }

  /** The totals add up to the whole negative spend. */
  lemma {:induction false} NegativeTallyTotal(entries: seq<(string, real)>)
    ensures SumValues(NegativeTally(entries)) == TotalSpend(entries)
  {
    if entries != [] {
      var init := entries[..|entries| - 1];
      NegativeTallyTotal(init);
      var (key, a) := entries[|entries| - 1];
      if a < 0.0 {
        AddSum(NegativeTally(init), key, Abs(a));
      }
    }
  }

  /** Every entry of the tally: its total is its key's negative spend. */
  lemma NegativeTallyEntries(entries: seq<(string, real)>)
    ensures forall i | 0 <= i < |NegativeTally(entries)| ::
      NegativeTally(entries)[i].1 == SpendOn(entries, NegativeTally(entries)[i].0)
  {
    var t := NegativeTally(entries);
    NegativeTallyShape(entries);
    forall i | 0 <= i < |t| ensures t[i].1 == SpendOn(entries, t[i].0) {
      GetDistinct(t, i);
      NegativeTallyValues(entries, t[i].0);
    }
  }

  // ---------------------------------------------------------------------------
  // Key order: the tie-break of the merchant ranking.
  // ---------------------------------------------------------------------------

  /** The keys of a tally, in order. */
  function Keys(t: Tally): (ks: seq<string>)
    ensures |ks| == |t|
    ensures forall i | 0 <= i < |t| :: ks[i] == t[i].0
  {
    if t == [] then [] else [t[0].0] + Keys(t[1..])
  }

  /** Reference: the keys of the negative entries, each where it is first seen. */
  function FirstSeenKeys(entries: seq<(string, real)>): seq<string> {
    if entries == [] then []
    else
      var seen := FirstSeenKeys(entries[..|entries| - 1]);
      var (k, a) := entries[|entries| - 1];
      if a < 0.0 && k !in seen then seen + [k] else seen
  }

  /** `d[k] += v` leaves the key order alone, or appends a new key at the end. */
  lemma AddKeyOrder(t: Tally, k: string, v: real)
    ensures Keys(Add(t, k, v)) == if k in Keys(t) then Keys(t) else Keys(t) + [k]
  {
    var ks := Keys(t);
    if k in ks {
      var i :| 0 <= i < |ks| && ks[i] == k;
      assert t[i].0 == k;
    } else {
      assert !HasKey(t, k) by {
        assert forall i | 0 <= i < |t| :: t[i].0 == ks[i] && ks[i] != k;
      }
    }
  }

  /** The tally's keys come in the order of each key's first negative entry. */
  lemma {:induction false} NegativeTallyKeyOrder(entries: seq<(string, real)>)
    ensures Keys(NegativeTally(entries)) == FirstSeenKeys(entries)
  {
    if entries != [] {
      var init := entries[..|entries| - 1];
      NegativeTallyKeyOrder(init);
      var (k, a) := entries[|entries| - 1];
      if a < 0.0 {
        AddKeyOrder(NegativeTally(init), k, Abs(a));
      }
    }
  }
}
