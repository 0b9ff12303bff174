/**
 * The transaction ledger (models/ledger.py): an ordered list of transactions that
 * grows by appending, a hand-written iterator over it, and three filters that each
 * build a new ledger over the same transaction objects.
 */
module Ledger {
  import opened Wrappers
  import opened Text
  import opened Transactions

  /** `r` can be obtained from `s` by deleting elements, keeping the order of the rest. */
  predicate IsSubsequence<T(==)>(r: seq<T>, s: seq<T>)
    decreases |s|
  {
    if r == [] then true
    else if s == [] then false
    else (r[0] == s[0] && IsSubsequence(r[1..], s[1..])) || IsSubsequence(r, s[1..])
  }

  // ---------------------------------------------------------------------------
  // The three filters, as the list comprehensions of the Python methods.
  // ---------------------------------------------------------------------------

  /** The test of `filter_by_month`: same calendar year and month. */
  predicate InMonth(t: Transaction, year: int, month: int) {
    t.date.year == year && t.date.month == month
  }

  /** `[t for t in ts if t.date.year == year and t.date.month == month]`. */
  function FilterMonth(ts: seq<Transaction>, year: int, month: int): (r: seq<Transaction>)
    ensures |r| <= |ts| && IsSubsequence(r, ts)
    ensures forall i | 0 <= i < |r| :: r[i] in ts && InMonth(r[i], year, month)
    ensures forall i | 0 <= i < |ts| :: InMonth(ts[i], year, month) ==> ts[i] in r
  {
    if ts == [] then []
    else
      var rest := FilterMonth(ts[1..], year, month);
      assert ts == [ts[0]] + ts[1..];
      if InMonth(ts[0], year, month) then [ts[0]] + rest else rest
  }

  /** The test of `filter_by_category`: equal after lower-casing both sides. */
  predicate HasCategory(t: Transaction, name: string)
    reads t
  {
    Lower(t.category) == Lower(name)
  }

  /** `[t for t in ts if t.category.lower() == name.lower()]`. */
  function FilterCategory(ts: seq<Transaction>, name: string): (r: seq<Transaction>)
    reads ts
    ensures |r| <= |ts| && IsSubsequence(r, ts)
    ensures forall i | 0 <= i < |r| :: r[i] in ts && HasCategory(r[i], name)
    ensures forall i | 0 <= i < |ts| :: HasCategory(ts[i], name) ==> ts[i] in r
  {
    if ts == [] then []
    else
      var rest := FilterCategory(ts[1..], name);
      assert ts == [ts[0]] + ts[1..];
      if HasCategory(ts[0], name) then [ts[0]] + rest else rest
  }

  /** The test of `search_by_text`: the lowered query occurs in the lowered merchant. */
  predicate MatchesText(t: Transaction, query: string) {
    IsSubstring(Lower(query), Lower(t.merchant))
  }

  /** `[t for t in ts if query.lower() in t.merchant.lower()]`. */
  function SearchText(ts: seq<Transaction>, query: string): (r: seq<Transaction>)
    ensures |r| <= |ts| && IsSubsequence(r, ts)
    ensures forall i | 0 <= i < |r| :: r[i] in ts && MatchesText(r[i], query)
    ensures forall i | 0 <= i < |ts| :: MatchesText(ts[i], query) ==> ts[i] in r
  {
    if ts == [] then []
    else
      var rest := SearchText(ts[1..], query);
      assert ts == [ts[0]] + ts[1..];
      if MatchesText(ts[0], query) then [ts[0]] + rest else rest
  }

  // ---------------------------------------------------------------------------
  // Properties of the filters.
  // ---------------------------------------------------------------------------

  /** A month filter keeps a list whose every element is already in that month. */
  lemma {:induction false} FilterMonthKeepsAll(ts: seq<Transaction>, year: int, month: int)
    requires forall i | 0 <= i < |ts| :: InMonth(ts[i], year, month)
    ensures FilterMonth(ts, year, month) == ts
  {
    if ts != [] {
      FilterMonthKeepsAll(ts[1..], year, month);
    }
  }

  /** Filtering by month twice is filtering once. */
  lemma FilterMonthIdempotent(ts: seq<Transaction>, year: int, month: int)
    ensures FilterMonth(FilterMonth(ts, year, month), year, month) == FilterMonth(ts, year, month)
  {
    var r := FilterMonth(ts, year, month);
    assert forall i | 0 <= i < |r| :: r[i] in r;
    FilterMonthKeepsAll(r, year, month);
  }

  /** A month number outside 1..12 selects nothing from transactions with real dates. */
  lemma FilterMonthOutOfRange(ts: seq<Transaction>, year: int, month: int)
    requires month < 1 || 12 < month
    requires forall i | 0 <= i < |ts| :: ValidDate(ts[i].date)
    ensures FilterMonth(ts, year, month) == []
  {
  }

  lemma {:induction false} FilterCategoryKeepsAll(ts: seq<Transaction>, name: string)
    requires forall i | 0 <= i < |ts| :: HasCategory(ts[i], name)
    ensures FilterCategory(ts, name) == ts
  {
    if ts != [] {
      FilterCategoryKeepsAll(ts[1..], name);
    }
  }

  /** Filtering by category twice is filtering once. */
  lemma FilterCategoryIdempotent(ts: seq<Transaction>, name: string)
    ensures FilterCategory(FilterCategory(ts, name), name) == FilterCategory(ts, name)
  {
    var r := FilterCategory(ts, name);
    assert forall i | 0 <= i < |r| :: r[i] in r;
    FilterCategoryKeepsAll(r, name);
  }

  lemma {:induction false} SearchTextKeepsAll(ts: seq<Transaction>, query: string)
    requires forall i | 0 <= i < |ts| :: MatchesText(ts[i], query)
    ensures SearchText(ts, query) == ts
  {
    if ts != [] {
      SearchTextKeepsAll(ts[1..], query);
    }
  }

  /** Searching twice with the same query is searching once. */
  lemma SearchTextIdempotent(ts: seq<Transaction>, query: string)
    ensures SearchText(SearchText(ts, query), query) == SearchText(ts, query)
  {
    var r := SearchText(ts, query);
    assert forall i | 0 <= i < |r| :: r[i] in r;
    SearchTextKeepsAll(r, query);
  }

  /** The empty query occurs in every merchant name, so it keeps the whole list. */
  lemma SearchEmptyKeepsAll(ts: seq<Transaction>)
    ensures SearchText(ts, "") == ts
  {
    forall i | 0 <= i < |ts| ensures MatchesText(ts[i], "") {
      EmptyIsSubstring(Lower(ts[i].merchant));
    }
    SearchTextKeepsAll(ts, "");
  }

  /** `FilterMonth` keeps every selected transaction as often as it occurs, and no other. */
  lemma {:induction false} FilterMonthCounts(ts: seq<Transaction>, year: int, month: int)
    ensures forall i | 0 <= i < |ts| :: multiset(FilterMonth(ts, year, month))[ts[i]] == if InMonth(ts[i], year, month) then multiset(ts)[ts[i]] else 0
  {
    if ts != [] {
      FilterMonthCounts(ts[1..], year, month);
      assert ts == [ts[0]] + ts[1..];
      var keep := InMonth(ts[0], year, month);
      assert multiset(FilterMonth(ts, year, month)) == (if keep then multiset{ts[0]} else multiset{}) + multiset(FilterMonth(ts[1..], year, month));
      forall i | 0 <= i < |ts|
        ensures multiset(FilterMonth(ts, year, month))[ts[i]] == if InMonth(ts[i], year, month) then multiset(ts)[ts[i]] else 0
      {
        if ts[i] !in ts[1..] {
          assert multiset(ts[1..])[ts[i]] == 0;
        }
      }
    }
  }

  /** `FilterCategory` keeps every selected transaction as often as it occurs, and no other. */
  lemma {:induction false} FilterCategoryCounts(ts: seq<Transaction>, name: string)
    ensures forall i | 0 <= i < |ts| :: multiset(FilterCategory(ts, name))[ts[i]] == if HasCategory(ts[i], name) then multiset(ts)[ts[i]] else 0
  {
    if ts != [] {
      FilterCategoryCounts(ts[1..], name);
      assert ts == [ts[0]] + ts[1..];
      var keep := HasCategory(ts[0], name);
      assert multiset(FilterCategory(ts, name)) == (if keep then multiset{ts[0]} else multiset{}) + multiset(FilterCategory(ts[1..], name));
      forall i | 0 <= i < |ts|
        ensures multiset(FilterCategory(ts, name))[ts[i]] == if HasCategory(ts[i], name) then multiset(ts)[ts[i]] else 0
      {
        if ts[i] !in ts[1..] {
          assert multiset(ts[1..])[ts[i]] == 0;
        }
      }
    }
  }

  /** `SearchText` keeps every selected transaction as often as it occurs, and no other. */
  lemma {:induction false} SearchTextCounts(ts: seq<Transaction>, query: string)
    ensures forall i | 0 <= i < |ts| :: multiset(SearchText(ts, query))[ts[i]] == if MatchesText(ts[i], query) then multiset(ts)[ts[i]] else 0
  {
    if ts != [] {
      SearchTextCounts(ts[1..], query);
      assert ts == [ts[0]] + ts[1..];
      var keep := MatchesText(ts[0], query);
      assert multiset(SearchText(ts, query)) == (if keep then multiset{ts[0]} else multiset{}) + multiset(SearchText(ts[1..], query));
      forall i | 0 <= i < |ts|
        ensures multiset(SearchText(ts, query))[ts[i]] == if MatchesText(ts[i], query) then multiset(ts)[ts[i]] else 0
      {
        if ts[i] !in ts[1..] {
          assert multiset(ts[1..])[ts[i]] == 0;
        }
      }
    }
  }

  // ---------------------------------------------------------------------------
  // The iterator and the ledger objects.
  // ---------------------------------------------------------------------------

  /** `TransactionIterator`: a cursor over the ledger's list; `Next` returns None where Python raises StopIteration. */
  class TransactionIterator {
    const transactions: seq<Transaction>
    var index: nat

    /** The cursor never passes the end of the list. */
    ghost predicate Valid()
      reads this
    {
      index <= |transactions|
    }

    constructor (transactions: seq<Transaction>)
      ensures Valid()
      ensures this.transactions == transactions && index == 0
    {
      this.transactions := transactions;
      index := 0;
    }

    /** `__next__`: the element under the cursor and one step forward, or the end signal with the cursor left alone. */
    method Next() returns (next: Option<Transaction>)
      modifies this`index
      ensures old(Valid()) ==> Valid()
      ensures old(index) < |transactions| ==> next == Some(transactions[old(index)]) && index == old(index) + 1
      ensures |transactions| <= old(index) ==> next == None && index == old(index)
    {
      if index < |transactions| {
        var t := transactions[index];
        index := index + 1;
        return Some(t);
      }
      return None;
    }
  }

  class TransactionLedger {
    var transactions: seq<Transaction>

    /** `TransactionLedger(transactions=None)`: the given list, or an empty one when none is given. */
    constructor (initial: Option<seq<Transaction>>)
      ensures transactions == if initial.Some? then initial.value else []
    {
      transactions := if initial.Some? then initial.value else [];
    }

    /** `add_transaction`: appends at the end; every earlier element keeps its position. */
    method AddTransaction(t: Transaction)
      modifies this
      ensures transactions == old(transactions) + [t]
      ensures |transactions| == |old(transactions)| + 1 && transactions[|transactions| - 1] == t
      ensures forall i | 0 <= i < |old(transactions)| :: transactions[i] == old(transactions)[i]
    {
      transactions := transactions + [t];
    }

    /** `__iter__`: a fresh cursor at the start of this ledger's list. */
    method Iter() returns (it: TransactionIterator)
      ensures fresh(it) && it.Valid()
      ensures it.transactions == transactions && it.index == 0
    {
      it := new TransactionIterator(transactions);
    }

    /** `filter_by_month`: a new ledger; this one is not changed. */
    method FilterByMonth(year: int, month: int) returns (l: TransactionLedger)
      ensures fresh(l)
      ensures l.transactions == FilterMonth(transactions, year, month)
    {
      l := new TransactionLedger(Some(FilterMonth(transactions, year, month)));
    }

    /** `filter_by_category`: a new ledger; this one is not changed. */
    method FilterByCategory(name: string) returns (l: TransactionLedger)
      ensures fresh(l)
      ensures l.transactions == FilterCategory(transactions, name)
    {
      l := new TransactionLedger(Some(FilterCategory(transactions, name)));
    }

    /** `search_by_text`: a new ledger; this one is not changed. */
    method SearchByText(query: string) returns (l: TransactionLedger)
      ensures fresh(l)
      ensures l.transactions == SearchText(transactions, query)
    {
      l := new TransactionLedger(Some(SearchText(transactions, query)));
    }
  }
}
