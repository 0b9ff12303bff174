# BudgetBuddy transaction engine in Dafny

This project models and verifies the in-memory core of BudgetBuddy, a personal-budget tool. It has four parts.

- **The ledger** (`ledger.dfy`):
  - `TransactionLedger` is a class over a `seq<Transaction>`. It has an in-place append and three filters that each build a new ledger: calendar month, case-insensitive category, and case-insensitive merchant substring.
  - `TransactionIterator` is the hand-written index-based iterator.
  - `Transaction` (`transaction.dfy`) is a class. Its `category` is the only mutable field, because the categoriser assigns to it.
- **The reports** (`reports.dfy`, with `tallies.dfy` and `ranking.dfy`). Each is a method that walks the ledger with its iterator and keeps running totals:
  - `monthly_summary`;
  - `spend_by_category`;
  - `top_merchants`.

  A `defaultdict(float)` is modelled as an ordered sequence of (key, total) pairs, because a Python dict keeps first-insertion order and that order breaks ties in the ranking. The ranking is a stable descending insertion sort followed by Python's slice `[:top_n]`.
- **The categoriser** (`categorize.dfy`). `assign_category` is a nested search with early exit over an ordered list of (category, keywords) rules. It writes the category of the transaction in place.
- **The importer's row loop** (`importer.dfy`, with `parsing.dfy`):
  - The file arrives as an optional list of rows of fields. `None` stands for a file that cannot be opened.
  - The first row is the header.
  - Every later row with three fields, a valid `%Y-%m-%d` date and a decimal amount becomes a transaction with an empty category.
  - Every other row is skipped.

Specific choices:

- Amounts are exact `real`s.
- `.lower()` and `.strip()` are ASCII-only. `strip` removes space and the characters 9–13 and 28–31.
- `needle in hay` is a substring predicate, decided by `Text.Contains`.
- `datetime.strptime(s, '%Y-%m-%d')` is written out the way CPython's directive patterns accept it:
  - four digits for the year;
  - `1[0-2]`, `0[1-9]` or `[1-9]` for the month;
  - `3[01]`, `[12][0-9]`, `0[1-9]`, `[1-9]` or a space then `[1-9]` for the day;
  - then the Gregorian calendar check.
- `float(s)` is restricted to an optional sign, a decimal point and digits.

## Model

| member | source | states |
|---|---|---|
| Transactions.Transaction.constructor | models/transaction.py:3-9 | a transaction holds the date, merchant, amount, category and raw row it was built with; only its category may change afterwards |
| Ledger.TransactionIterator.constructor | models/ledger.py:4-6 | a new iterator is over exactly the given transactions and starts at index 0 |
| Ledger.TransactionLedger.constructor | models/ledger.py:16-17 | a ledger starts with the given list, or with an empty one when none is given |
| Ledger.TransactionLedger.AddTransaction | models/ledger.py:19-20 | the transaction is appended: length grows by one, the new last element is the transaction, every earlier element stays in its position |
| Ledger.TransactionLedger.Iter | models/ledger.py:22-23 | a fresh iterator over exactly the ledger's transactions, positioned at the start |
| Ledger.TransactionIterator.Next | models/ledger.py:8-13 | before the end it returns the element at the current index and advances the index by one; at the end it returns None and the index stays put; the index never passes the length |
| Ledger.FilterMonth | models/ledger.py:25-30 | an order-preserving subsequence of the ledger, at most as long; it holds every transaction of that year and month and no other |
| Ledger.FilterMonthCounts | models/ledger.py:26-29 | each transaction occurs in the result exactly as often as in the source when it is in the month, and not at all otherwise |
| Ledger.FilterMonthOutOfRange | models/ledger.py:25-30 | a month outside 1..12 gives an empty result rather than an error |
| Ledger.FilterMonthKeepsAll | models/ledger.py:26-29 | when every transaction is in the month, the filter returns the whole list |
| Ledger.FilterMonthIdempotent | models/ledger.py:26-30 | filtering the result again by the same month returns it unchanged |
| Ledger.FilterCategory | models/ledger.py:32-37 | an order-preserving subsequence holding exactly the transactions whose lowered category equals the lowered name |
| Ledger.FilterCategoryCounts | models/ledger.py:33-36 | each transaction's multiplicity is kept when its category matches and is zero otherwise |
| Ledger.FilterCategoryKeepsAll | models/ledger.py:33-36 | when every category matches, the whole list is returned |
| Ledger.FilterCategoryIdempotent | models/ledger.py:33-37 | filtering twice by the same name equals filtering once |
| Ledger.SearchText | models/ledger.py:39-45 | an order-preserving subsequence holding exactly the transactions whose lowered merchant contains the lowered query |
| Ledger.SearchTextCounts | models/ledger.py:40-44 | each transaction's multiplicity is kept when its merchant matches and is zero otherwise |
| Ledger.SearchTextKeepsAll | models/ledger.py:40-44 | when every merchant matches, the whole list is returned |
| Ledger.SearchTextIdempotent | models/ledger.py:40-45 | searching twice with the same query equals searching once |
| Ledger.SearchEmptyKeepsAll | models/ledger.py:40-44 | the empty query keeps every transaction |
| Ledger.TransactionLedger.FilterByMonth | models/ledger.py:25-30 | returns a new ledger holding the month filter of this one, and changes nothing |
| Ledger.TransactionLedger.FilterByCategory | models/ledger.py:32-37 | returns a new ledger holding the category filter of this one, and changes nothing |
| Ledger.TransactionLedger.SearchByText | models/ledger.py:39-45 | returns a new ledger holding the text search of this one, and changes nothing |
| Text.LowerChar | services/categorize.py:6 | the lowered character is never upper-case and is unchanged unless it was upper-case |
| Text.Lower | services/categorize.py:6 | same length, and each character is lowered separately |
| Text.LowerOfLowered | services/categorize.py:6 | lowering a lower-case string changes nothing |
| Text.Strip | services/reports.py:22 | `strip()` as `rstrip` after `lstrip`: drop leading and then trailing white space; what that leaves is stated by Text.StripShape and Text.StripIdempotent |
| Text.StripShape | services/reports.py:22 | stripping yields a piece of the string that neither starts nor ends with white space, and every character removed before and after that piece is white space |
| Text.StripIdempotent | services/reports.py:22 | stripping twice is stripping once |
| Text.Contains | services/categorize.py:11 | the scan answers true exactly when the needle occurs at some position of the hay |
| Text.UpperNeverInLowered | services/categorize.py:6-11 | a needle holding an upper-case letter never occurs in a lowered string |
| Categorize.Category | services/categorize.py:6-16 | the category of a merchant: the name of the first rule, in order, with a keyword in the lowered merchant, else "Uncategorized"; its properties are Categorize.FirstMatchWins, Categorize.NoMatchIsUncategorized and Categorize.CategoryIsRuleOrFallback |
| Categorize.FirstMatchFrom | services/categorize.py:9-13 | the rule found is the first one, from the start, with some keyword in the merchant, and None means no rule has one |
| Categorize.AssignCategory | services/categorize.py:1-17 | returns the same transaction, whose category is now the rule-order category of its merchant; no other field changes |
| Categorize.FirstMatchWins | services/categorize.py:9-13 | when rule i has a matching keyword and no earlier rule does, the category is rule i's name, whatever later rules say |
| Categorize.NoMatchIsUncategorized | services/categorize.py:15-16 | with no keyword in the lowered merchant, the category is exactly "Uncategorized" |
| Categorize.CategoryIsRuleOrFallback | services/categorize.py:9-17 | the category is one of the rule names or "Uncategorized"; when no rule is itself named "Uncategorized", the category is "Uncategorized" exactly when no rule matches |
| Categorize.UpperCaseKeywordNeverMatches | services/categorize.py:6-11 | keywords are not lowered: a keyword with an upper-case letter never matches any merchant |
| Categorize.AssignCategoryTwice | services/categorize.py:1-17 | running assignment twice leaves the category the first run gave |
| Categorize.GroceriesExample | services/categorize.py:9-13 | with rules Groceries/"whole foods" then Dining/"foods", "Whole Foods Market" becomes Groceries |
| Categorize.FallbackExample | services/categorize.py:15-16 | with the same rules, "Unknown Shop" becomes Uncategorized |
| Parsing.ParseDate | services/importer.py:21 | a parsed date is a real calendar date (month 1..12, day within the month, leap years Gregorian) |
| Parsing.ParseAmount | services/importer.py:24 | a parsed amount is at most zero after a leading '-' and at least zero otherwise; a signed text parses exactly when the text after its sign does |
| Parsing.ParseIsoText | services/importer.py:21 | every calendar date written as YYYY-MM-DD parses back to itself |
| Parsing.ParseCentsText | services/importer.py:24 | an amount written with a sign, digits and two decimals parses back to exactly its value |
| Importer.ParseRow | services/importer.py:18-33 | one data row: a record when the row has exactly three fields whose first parses as a date and third as an amount, else the row is skipped; what a record holds is stated by Importer.ParseRowsFields |
| Importer.ParseRows | services/importer.py:15-37 | the records of the data rows that parse, in row order; its properties are Importer.ParseRowsAreParsedRows, Importer.ParseRowsAppend and Importer.SkipBadRow |
| Importer.Imported | services/importer.py:12-37 | what the import yields: nothing for an unreadable file or one without a header row, else the parsed rows after the header; see Importer.HeaderIsSkipped and Importer.ImportedBound |
| Importer.ImportTransactions | services/importer.py:5-43 | the result has one newly allocated transaction per parsed data row, no two the same object, in row order, each with the row's date, merchant, amount and raw fields and an empty category |
| Importer.HeaderIsSkipped | services/importer.py:12 | the first row never becomes a transaction, whatever it holds |
| Importer.UnreadableOrEmptyImportsNothing | services/importer.py:38-43 | a file that cannot be opened, or that has no header row, gives an empty result |
| Importer.ImportedBound | services/importer.py:15-34 | never more transactions than data rows |
| Importer.ParseRowsAreParsedRows | services/importer.py:15-34 | the records are exactly the parsed rows at strictly increasing row positions, so row order is kept |
| Importer.ParseRowsFields | services/importer.py:27-32 | each record's merchant is its row's second field verbatim and its raw is the row |
| Importer.SkipBadRow | services/importer.py:16-37 | a row that does not parse is dropped and the rows after it are still imported |
| Importer.ParseRowsAppend | services/importer.py:15-37 | each row is handled independently: parsing a concatenation concatenates the results |
| Importer.UndatedRowSkipped | services/importer.py:18-21 | a three-field row whose date does not start with a digit is skipped |
| Importer.ImportExample | services/importer.py:12-37 | header, a well-formed row and a "not-a-date" row import to exactly the well-formed row's record |
| Tallies.Add | services/reports.py:11 | `d[k] += v`: an existing key keeps its place, a new key is appended at the end, the other entries are unchanged |
| Tallies.AddGet | services/reports.py:11 | `d[k] += v` raises k's total by v and leaves every other key's total alone |
| Tallies.NegativeTally | services/reports.py:8-11 | the defaultdict after the loop: abs(amount) added under its key for every negative amount, in order, from an empty tally; its properties are the Tallies.NegativeTally* lemmas below |
| Tallies.NegativeTallyKeys | services/reports.py:9-12 | the keys are exactly the keys having at least one negative amount |
| Tallies.NegativeTallyShape | services/reports.py:9-12 | no key occurs twice and every total is above zero |
| Tallies.NegativeTallyValues | services/reports.py:10-11 | each key's total equals the sum of abs(amount) over its negative amounts |
| Tallies.NegativeTallyTotal | services/reports.py:10-11 | the totals add up to the whole absolute negative spend |
| Tallies.NegativeTallyKeyOrder | services/reports.py:19-22 | keys come in the order in which each key's first negative amount is seen |
| Reports.SpendByCategory | services/reports.py:3-12 | one key per category with a negative transaction and no other; each value is that category's total absolute spend and is positive; the values sum to the total spend |
| Reports.SpendByCategoryFacts | services/reports.py:9-12 | for any ledger contents the category tally has distinct keys, exactly the categories with a negative amount, positive totals equal to each category's abs-spend, and values summing to the total spend |
| Reports.Income | services/reports.py:32-37 | the running income total: the sum of the amounts above zero; see Reports.SummarySigns and Reports.SummaryPartition |
| Reports.Outgoings | services/reports.py:33-39 | the running expenses total: the sum of the amounts at or below zero; see Reports.SummarySigns and Reports.SummaryPartition |
| Reports.SummarySigns | services/reports.py:35-39 | income is never negative and outgoings are never positive |
| Reports.SummaryPartition | services/reports.py:35-41 | every amount is counted once, as income (above zero) or outgoing (zero or below) |
| Reports.MonthlySummary | services/reports.py:27-47 | income is the sum of the positive amounts, expenses the absolute sum of the rest, both non-negative; net equals income minus expenses and the sum of all amounts |
| Reports.SummaryExample | services/reports.py:35-45 | amounts +1000, -200, -50 and 0 give income 1000, expenses 250 and net 750 |
| Reports.MerchantKey | services/reports.py:22 | the key a merchant's spending is filed under, `merchant.lower().strip()`; see Reports.MerchantKeyIsNormal |
| Reports.MerchantKeyIsNormal | services/reports.py:22 | the merchant key is lower-case, stripped, and normalising it again changes nothing |
| Ranking.SortByTotal | services/reports.py:24 | the sorted list is a permutation of the tally, in non-increasing order of total |
| Ranking.SortByTotalStable | services/reports.py:24 | entries of equal total keep their relative order |
| Ranking.SliceTo | services/reports.py:25 | Python's `[:n]`: a prefix of length min(n, len) for n >= 0, and all but the last -n for negative n |
| Reports.TopMerchants | services/reports.py:14-25 | the result is a prefix of the stable ranking of the per-merchant negative spend, sorted non-increasing, of length min(top_n, #merchants) for top_n >= 0, with distinct normalised keys whose totals are the positive abs-spend of that merchant |
| Reports.MerchantTieBreak | services/reports.py:19-24 | merchants of equal total stay in tally order, which is first-seen order of each merchant's spending |
| Reports.TopMerchantsExample | services/reports.py:24-25 | spends a 100, b 50 and c 75 with top_n 2 give a then c |

## Left out

- File opening, UTF-8 decoding and the `csv` module's tokenising and quoting: the importer takes the rows already split into fields.
- The importer's `print` of the header and of each skipped row, and every other message: these are output only.
- The generic `except Exception` around the whole import: only the no-header case (`StopIteration` from `next`) is modelled. A failure raised by the csv reader halfway through would return the rows imported so far, and that is not modelled.
- Parsing.ParseDate: only the `%Y-%m-%d` patterns of CPython's `strptime`, as ASCII. Looser inputs `strptime` also takes, such as non-ASCII digits, are not modelled.
- Parsing.ParseAmount: only an optional sign, digits and a decimal point. `float` also accepts surrounding white space, exponents, underscores, `inf` and `nan`; those texts are rejected here.
- Floating-point rounding in the sums: amounts are exact reals, so sums, partitions and the ranking are exact.
- Unicode case mapping in `.lower()` and Unicode white space in `.strip()`: only ASCII is modelled.
- Ledger.TransactionIterator.Next: the iterator is given the ledger's list as a value when it is created. In Python it shares the list, so an append during iteration would be seen by the iterator; that aliasing is not modelled.
- Ledger.TransactionLedger.constructor: a list passed to the ledger is held as a value. In Python the ledger shares that list with the caller.
- Reports.SpendByCategory: the sequence of pairs is returned in insertion order. The Python code turns it into a `dict`; the model does not build that dict.
- Reports.TopMerchants: a negative `top_n` follows the code, so `[:-k]` drops the last k merchants. A caller that expects a non-positive `top_n` to give an empty list gets all but the last k merchants instead.
- Rules are an ordered list of (category, keywords) pairs. A Python dict's keys are unique; the model does not require that.
- `sorted` is modelled as a stable insertion sort; only its result is claimed, not Python's algorithm.
- `main.py` (the interactive menu) and `services/storage.py` (JSON load and save) are not part of this model.
