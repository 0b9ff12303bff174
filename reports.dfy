/**
 * The three report queries (services/reports.py). Each walks the ledger with its
 * iterator, exactly as `for transaction in ledger` does, keeping running totals.
 */
module Reports {
  import opened Wrappers
  import opened Text
  import opened Transactions
  import opened Ledger
  import opened Tallies
  import opened Ranking

  // ---------------------------------------------------------------------------
  // What each loop reads from a transaction, in ledger order.
  // ---------------------------------------------------------------------------

  /** (category, amount) of each transaction. */
  function CategoryEntries(ts: seq<Transaction>): (e: seq<(string, real)>)
    reads ts
    ensures |e| == |ts|
    ensures forall i | 0 <= i < |ts| :: e[i] == (ts[i].category, ts[i].amount)
  {
    if ts == [] then [] else CategoryEntries(ts[..|ts| - 1]) + [(ts[|ts| - 1].category, ts[|ts| - 1].amount)]
  }

  /** The key `top_merchants` files a merchant under: `merchant.lower().strip()`. */
  function MerchantKey(merchant: string): string {
    Strip(Lower(merchant))
  }

  /** (normalised merchant, amount) of each transaction. */
  function MerchantEntries(ts: seq<Transaction>): (e: seq<(string, real)>) {
    seq(|ts|, i requires 0 <= i < |ts| => (MerchantKey(ts[i].merchant), ts[i].amount))
  }

  /** The amount of each transaction. */
  function Amounts(ts: seq<Transaction>): (a: seq<real>)
    ensures |a| == |ts|
    ensures forall i | 0 <= i < |ts| :: a[i] == ts[i].amount
  {
    if ts == [] then [] else Amounts(ts[..|ts| - 1]) + [ts[|ts| - 1].amount]
  }

  // ---------------------------------------------------------------------------
  // monthly_summary
  // ---------------------------------------------------------------------------

  datatype Summary = Summary(income: real, expenses: real, netBalance: real)

  /** The sum of the amounts above zero. */
  function Income(a: seq<real>): real {
    if a == [] then 0.0
    else Income(a[..|a| - 1]) + (if a[|a| - 1] > 0.0 then a[|a| - 1] else 0.0)
  }

  /** The sum of the amounts at or below zero (a zero amount falls here). */
  function Outgoings(a: seq<real>): real {
    if a == [] then 0.0
    else Outgoings(a[..|a| - 1]) + (if a[|a| - 1] > 0.0 then 0.0 else a[|a| - 1])
  }

  function Sum(a: seq<real>): real {
    if a == [] then 0.0 else Sum(a[..|a| - 1]) + a[|a| - 1]
  }

  /** Income is never negative and outgoings never positive. */
  lemma {:induction false} SummarySigns(a: seq<real>)
    ensures Income(a) >= 0.0 && Outgoings(a) <= 0.0
  {
    if a != [] {
      SummarySigns(a[..|a| - 1]);
    }
  }

  /** Every amount is counted exactly once, as income or as outgoing. */
  lemma {:induction false} SummaryPartition(a: seq<real>)
    ensures Income(a) + Outgoings(a) == Sum(a)
  {
    if a != [] {
      SummaryPartition(a[..|a| - 1]);
    }
  }

  /** The loop step: amount k adds to income when above zero and to outgoings otherwise. */
  lemma SummaryStep(a: seq<real>, k: nat, amount: real)
    requires k < |a| && a[k] == amount
    ensures Income(a[..k + 1]) == Income(a[..k]) + (if amount > 0.0 then amount else 0.0)
    ensures Outgoings(a[..k + 1]) == Outgoings(a[..k]) + (if amount > 0.0 then 0.0 else amount)
  {
    assert a[..k + 1][..k] == a[..k];
  }

  /**
   * `monthly_summary`: income is the sum of the positive amounts, expenses the
   * absolute value of the sum of the others, and the net balance their difference,
   * which is the sum of all amounts.
   */
  method MonthlySummary(ledger: TransactionLedger) returns (s: Summary)
    ensures s.income == Income(Amounts(ledger.transactions))
    ensures s.expenses == -Outgoings(Amounts(ledger.transactions))
    ensures s.income >= 0.0 && s.expenses >= 0.0
    ensures s.netBalance == s.income - s.expenses
    ensures s.netBalance == Sum(Amounts(ledger.transactions))
  {
    ghost var ts := ledger.transactions;
    ghost var amounts := Amounts(ts);
    var totalIncome := 0.0;
    var totalExpenses := 0.0;
    var it := ledger.Iter();
    while true
      invariant it.Valid() && it.transactions == ts
      invariant totalIncome == Income(amounts[..it.index])
      invariant totalExpenses == Outgoings(amounts[..it.index])
      decreases |ts| - it.index
    {
      var next := it.Next();
      if next.None? {
        break;
      }
      var t := next.value;
      SummaryStep(amounts, it.index - 1, t.amount);
      if t.amount > 0.0 {
        totalIncome := totalIncome + t.amount;
      } else {
        totalExpenses := totalExpenses + t.amount;
      }
    }
    assert amounts[..it.index] == amounts;
    SummarySigns(amounts);
    SummaryPartition(amounts);
    var netBalance := totalIncome + totalExpenses;
    s := Summary(totalIncome, Abs(totalExpenses), netBalance);
  }

  /** The worked example: amounts +1000, -200, -50 and 0 give income 1000, expenses 250, net 750. */
  lemma SummaryExample()
    ensures Income([1000.0, -200.0, -50.0, 0.0]) == 1000.0
    ensures -Outgoings([1000.0, -200.0, -50.0, 0.0]) == 250.0
    ensures Sum([1000.0, -200.0, -50.0, 0.0]) == 750.0
  {
    var a: seq<real> := [1000.0, -200.0, -50.0, 0.0];
    assert a[..1][..0] == [] && a[..2][..1] == a[..1] && a[..3][..2] == a[..2] && a[..4][..3] == a[..3] && a[..4] == a;
    assert Income(a[..1]) == 1000.0 && Outgoings(a[..1]) == 0.0 && Sum(a[..1]) == 1000.0;
    assert Income(a[..2]) == 1000.0 && Outgoings(a[..2]) == -200.0 && Sum(a[..2]) == 800.0;
    assert Income(a[..3]) == 1000.0 && Outgoings(a[..3]) == -250.0 && Sum(a[..3]) == 750.0;
  }

  // ---------------------------------------------------------------------------
  // spend_by_category
  // ---------------------------------------------------------------------------

  /** Some transaction of category `c` has a negative amount. */
  predicate HasExpenseIn(ts: seq<Transaction>, c: string)
    reads ts
  {
    exists i | 0 <= i < |ts| :: ts[i].category == c && ts[i].amount < 0.0
  }

  /**
   * `spend_by_category`: for each category with at least one negative transaction,
   * the sum of `abs(amount)` over those transactions; no other category appears.
   */
  method SpendByCategory(ledger: TransactionLedger) returns (spend: Tally)
    ensures spend == NegativeTally(CategoryEntries(ledger.transactions))
    ensures DistinctKeys(spend)
    ensures forall c :: HasKey(spend, c) <==> HasExpenseIn(ledger.transactions, c)
    ensures forall i | 0 <= i < |spend| ::
      spend[i].1 > 0.0 && spend[i].1 == SpendOn(CategoryEntries(ledger.transactions), spend[i].0)
    ensures SumValues(spend) == TotalSpend(CategoryEntries(ledger.transactions))
  {
    ghost var ts := ledger.transactions;
    ghost var entries := CategoryEntries(ts);
    spend := [];
    var it := ledger.Iter();
    while true
      invariant it.Valid() && it.transactions == ts
      invariant spend == NegativeTally(entries[..it.index])
      decreases |ts| - it.index
    {
      var next := it.Next();
      if next.None? {
        break;
      }
      var t := next.value;
      NegativeTallyStep(entries, it.index - 1, t.category, t.amount);
      if t.amount < 0.0 {
        spend := Add(spend, t.category, Abs(t.amount));
      }
    }
    assert entries[..it.index] == entries;
    SpendByCategoryFacts(ts);
  }

  /** What the category tally satisfies, for any ledger contents. */
  lemma SpendByCategoryFacts(ts: seq<Transaction>)
    ensures var spend := NegativeTally(CategoryEntries(ts));
      && DistinctKeys(spend)
      && (forall c :: HasKey(spend, c) <==> HasExpenseIn(ts, c))
      && (forall i | 0 <= i < |spend| :: spend[i].1 > 0.0 && spend[i].1 == SpendOn(CategoryEntries(ts), spend[i].0))
      && SumValues(spend) == TotalSpend(CategoryEntries(ts))
  {
    var e := CategoryEntries(ts);
    NegativeTallyShape(e);
    NegativeTallyEntries(e);
    NegativeTallyTotal(e);
    forall c ensures HasKey(NegativeTally(e), c) <==> SpentOn(e, c) {
      NegativeTallyKeys(e, c);
    }
  }

  // ---------------------------------------------------------------------------
  // top_merchants
  // ---------------------------------------------------------------------------

  /** The normalised key is lower-case, has no white space at either end, and normalising again changes nothing. */
  lemma MerchantKeyIsNormal(merchant: string)
    ensures IsLowered(MerchantKey(merchant))
    ensures MerchantKey(merchant) == Strip(MerchantKey(merchant))
    ensures MerchantKey(MerchantKey(merchant)) == MerchantKey(merchant)
  {
    var k := MerchantKey(merchant);
    LowerIsLowered(merchant);
    StripOfLowered(Lower(merchant));
    LowerOfLowered(k);
    StripIdempotent(Lower(merchant));
  }

  /** The per-merchant totals in first-seen order, as the dict holds them before sorting. */
  function MerchantTotals(ts: seq<Transaction>): Tally {
    NegativeTally(MerchantEntries(ts))
  }

  /**
   * `top_merchants`: totals of `abs(amount)` over the negative transactions per
   * normalised merchant, ranked by total (highest first, ties in first-seen order),
   * then cut to the first `top_n` entries (Python's `[:top_n]`).
   */
  method TopMerchants(ledger: TransactionLedger, topN: int) returns (top: Tally)
    ensures top == SliceTo(SortByTotal(MerchantTotals(ledger.transactions)), topN)
    ensures SortedByTotal(top)
    ensures 0 <= topN ==> |top| == if topN < |MerchantTotals(ledger.transactions)| then topN else |MerchantTotals(ledger.transactions)|
    ensures DistinctKeys(top)
    ensures forall i | 0 <= i < |top| :: MerchantKey(top[i].0) == top[i].0
    ensures forall i | 0 <= i < |top| ::
      top[i].1 > 0.0 && top[i].1 == SpendOn(MerchantEntries(ledger.transactions), top[i].0)
  {
    ghost var ts := ledger.transactions;
    ghost var entries := MerchantEntries(ts);
    var merchantSpend: Tally := [];
    var it := ledger.Iter();
    while true
      invariant it.Valid() && it.transactions == ts
      invariant merchantSpend == NegativeTally(entries[..it.index])
      decreases |ts| - it.index
    {
      var next := it.Next();
      if next.None? {
        break;
      }
      var t := next.value;
      var key := MerchantKey(t.merchant);
      NegativeTallyStep(entries, it.index - 1, key, t.amount);
      if t.amount < 0.0 {
        merchantSpend := Add(merchantSpend, key, Abs(t.amount));
      }
    }
    assert entries[..it.index] == entries;
    var sortedMerchants := SortByTotal(merchantSpend);
    top := SliceTo(sortedMerchants, topN);
    TopMerchantsFacts(ts, topN);
  }

  /** What the cut ranking satisfies, for any ledger contents and any `top_n`. */
  lemma TopMerchantsFacts(ts: seq<Transaction>, topN: int)
    ensures var top := SliceTo(SortByTotal(MerchantTotals(ts)), topN);
      && SortedByTotal(top)
      && (0 <= topN ==> |top| == if topN < |MerchantTotals(ts)| then topN else |MerchantTotals(ts)|)
      && DistinctKeys(top)
      && (forall i | 0 <= i < |top| :: MerchantKey(top[i].0) == top[i].0)
      && (forall i | 0 <= i < |top| :: top[i].1 > 0.0 && top[i].1 == SpendOn(MerchantEntries(ts), top[i].0))
  {
    var top := SliceTo(SortByTotal(MerchantTotals(ts)), topN);
    RankedProperties(MerchantEntries(ts), top, |top|);
    forall i | 0 <= i < |top| ensures MerchantKey(top[i].0) == top[i].0 {
      MerchantKeyOfSpent(ts, top[i].0);
    }
  }

  /** A prefix of the ranking of a negative tally keeps the tally's properties: distinct keys, positive totals equal to the keys' spend. */
  lemma RankedProperties(entries: seq<(string, real)>, top: Tally, n: nat)
    requires n <= |SortByTotal(NegativeTally(entries))|
    requires top == SortByTotal(NegativeTally(entries))[..n]
    ensures DistinctKeys(top) && SortedByTotal(top)
    ensures forall i | 0 <= i < |top| :: HasKey(NegativeTally(entries), top[i].0)
    ensures forall i | 0 <= i < |top| :: top[i].1 > 0.0 && top[i].1 == SpendOn(entries, top[i].0)
  {
    var t := NegativeTally(entries);
    var r := SortByTotal(t);
    NegativeTallyShape(entries);
    NegativeTallyEntries(entries);
    forall i | 0 <= i < |r| ensures r[i] in t {
      assert r[i] in multiset(r);
    }
    forall i | 0 <= i < |top| ensures HasKey(t, top[i].0) && top[i].1 > 0.0 && top[i].1 == SpendOn(entries, top[i].0) {
      assert top[i] == r[i] && r[i] in t;
    }
    forall i, j | 0 <= i < j < |top| ensures top[i].0 != top[j].0 {
      SortedDistinct(t, r, i, j);
    }
  }

  /** Sorting a tally with distinct keys keeps them distinct. */
  lemma SortedDistinct(t: Tally, r: Tally, i: nat, j: nat)
    requires DistinctKeys(t) && multiset(r) == multiset(t)
    requires i < j < |r|
    ensures r[i].0 != r[j].0
  {
    if r[i].0 == r[j].0 {
      assert r[i] in multiset(t) && r[j] in multiset(t);
      var p :| 0 <= p < |t| && t[p] == r[i];
      var q :| 0 <= q < |t| && t[q] == r[j];
      if p == q {
        // The same entry twice in r means it occurs twice in t, against distinct keys.
        assert r[i] == r[j];
        TwiceInSeq(r, i, j);
        DistinctOnce(t, p);
        assert false;
      }
    }
  }

  /** An element at two positions occurs at least twice. */
  lemma TwiceInSeq<T>(s: seq<T>, i: nat, j: nat)
    requires i < j < |s| && s[i] == s[j]
    ensures multiset(s)[s[i]] >= 2
  {
    assert s == s[..j] + [s[j]] + s[j + 1..];
    assert s[i] in s[..j];
  }

  /** In a tally with distinct keys each entry occurs once. */
  lemma {:induction false} DistinctOnce(t: Tally, p: nat)
    requires DistinctKeys(t) && p < |t|
    ensures multiset(t)[t[p]] == 1
  {
    assert t == t[..p] + [t[p]] + t[p + 1..];
    assert t[p] !in t[..p];
    assert t[p] !in t[p + 1..];
  }

  /** Every key of the merchant tally is the normalised name of some transaction's merchant, so it is normal itself. */
  lemma MerchantKeyOfSpent(ts: seq<Transaction>, k: string)
    requires HasKey(MerchantTotals(ts), k)
    ensures MerchantKey(k) == k
  {
    NegativeTallyKeys(MerchantEntries(ts), k);
    var i :| 0 <= i < |ts| && MerchantEntries(ts)[i].0 == k && MerchantEntries(ts)[i].1 < 0.0;
    MerchantKeyIsNormal(ts[i].merchant);
  }

  /**
   * Ties in the ranking: merchants of equal total come in the order of the running
   * tally, which is the order in which each merchant's first spend was seen.
   */
  lemma MerchantTieBreak(ts: seq<Transaction>, v: real)
    ensures WithTotal(SortByTotal(MerchantTotals(ts)), v) == WithTotal(MerchantTotals(ts), v)
    ensures Keys(MerchantTotals(ts)) == FirstSeenKeys(MerchantEntries(ts))
  {
    SortByTotalStable(MerchantTotals(ts), v);
    NegativeTallyKeyOrder(MerchantEntries(ts));
  }

  /** The worked example: spends A 100, B 50, C 75 with top_n = 2 give A then C. */
  lemma TopMerchantsExample()
    ensures SliceTo(SortByTotal([("a", 100.0), ("b", 50.0), ("c", 75.0)]), 2) == [("a", 100.0), ("c", 75.0)]
  {
    var s: Tally := [("a", 100.0), ("b", 50.0), ("c", 75.0)];
    assert s[..2] == [("a", 100.0), ("b", 50.0)];
    assert s[..2][..1] == [("a", 100.0)];
    assert s[..2][..1][..0] == [];
  }
}
