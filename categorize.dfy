/**
 * Rule-based categorisation (services/categorize.py). Rules are an ordered mapping
 * from category name to keyword list, written as a sequence of pairs so that the
 * mapping's order, which decides which rule wins, is explicit.
 */
module Categorize {
  import opened Wrappers
  import opened Text
  import opened Transactions

  type Rules = seq<(string, seq<string>)>

  const Uncategorized: string := "Uncategorized"

  /** Some keyword of the list occurs in the (already lowered) merchant name. Keywords are used as given. */
  predicate AnyKeywordIn(keywords: seq<string>, merchant: string) {
    exists k | 0 <= k < |keywords| :: IsSubstring(keywords[k], merchant)
  }

  /** The position of the first rule, from position `i` on, one of whose keywords occurs in `merchant`. */
  function FirstMatchFrom(rules: Rules, merchant: string, i: nat): (r: Option<nat>)
    requires i <= |rules|
    ensures r.Some? ==> i <= r.value < |rules| && AnyKeywordIn(rules[r.value].1, merchant)
    ensures r.Some? ==> forall j | i <= j < r.value :: !AnyKeywordIn(rules[j].1, merchant)
    ensures r.None? ==> forall j | i <= j < |rules| :: !AnyKeywordIn(rules[j].1, merchant)
    decreases |rules| - i
  {
    if i == |rules| then None
    else if AnyKeywordIn(rules[i].1, merchant) then Some(i)
    else FirstMatchFrom(rules, merchant, i + 1)
  }

  /** The category `assign_category` gives a merchant: the first matching rule's name, else "Uncategorized". */
  function Category(rules: Rules, merchant: string): string {
    match FirstMatchFrom(rules, Lower(merchant), 0)
    case Some(i) => rules[i].0
    case None => Uncategorized
  }

  /**
   * `assign_category`: scans the rules in order and, within a rule, its keywords in
   * order; the first keyword found in the lowered merchant name decides. Only the
   * category field of the transaction is assigned; the same object is returned.
   */
  method AssignCategory(t: Transaction, rules: Rules) returns (r: Transaction)
    modifies t
    ensures r == t
    ensures t.category == Category(rules, t.merchant)
  {
    var normalized := Lower(t.merchant);
    var i := 0;
    while i < |rules|
      invariant 0 <= i <= |rules|
      invariant FirstMatchFrom(rules, normalized, i) == FirstMatchFrom(rules, normalized, 0)
    {
      var (category, keywords) := rules[i];
      var k := 0;
      while k < |keywords|
        invariant 0 <= k <= |keywords|
        invariant forall q | 0 <= q < k :: !IsSubstring(keywords[q], normalized)
      {
        if Contains(normalized, keywords[k]) {
          assert AnyKeywordIn(rules[i].1, normalized);
          t.category := category;
          return t;
        }
        k := k + 1;
      }
      i := i + 1;
    }
    t.category := Uncategorized;
    return t;
  }

  // ---------------------------------------------------------------------------
  // Properties of the categoriser.
  // ---------------------------------------------------------------------------

  /** First match wins: the earliest rule with a keyword in the lowered merchant decides, whatever later rules say. */
  lemma FirstMatchWins(rules: Rules, merchant: string, i: nat, k: nat)
    requires i < |rules| && k < |rules[i].1|
    requires IsSubstring(rules[i].1[k], Lower(merchant))
    requires forall j, q | 0 <= j < i && 0 <= q < |rules[j].1| :: !IsSubstring(rules[j].1[q], Lower(merchant))
    ensures Category(rules, merchant) == rules[i].0
  {
    assert AnyKeywordIn(rules[i].1, Lower(merchant));
  }

  /** With no keyword of any rule in the lowered merchant, the category is exactly "Uncategorized". */
  lemma NoMatchIsUncategorized(rules: Rules, merchant: string)
    requires forall j, q | 0 <= j < |rules| && 0 <= q < |rules[j].1| :: !IsSubstring(rules[j].1[q], Lower(merchant))
    ensures Category(rules, merchant) == "Uncategorized"
  {
  }

  /** The category is always a rule's name or "Uncategorized"; it is the fallback only when no rule matches. */
  lemma CategoryIsRuleOrFallback(rules: Rules, merchant: string)
    ensures Category(rules, merchant) == Uncategorized || exists i | 0 <= i < |rules| :: rules[i].0 == Category(rules, merchant)
    ensures (forall i | 0 <= i < |rules| :: rules[i].0 != Uncategorized) ==>
              (Category(rules, merchant) == Uncategorized <==> forall j | 0 <= j < |rules| :: !AnyKeywordIn(rules[j].1, Lower(merchant)))
  {
  }

  /** Only the merchant side is lowered: a keyword holding an upper-case ASCII letter never matches. */
  lemma UpperCaseKeywordNeverMatches(rules: Rules, merchant: string, i: nat, k: nat, c: nat)
    requires i < |rules| && k < |rules[i].1| && c < |rules[i].1[k]|
    requires IsUpper(rules[i].1[k][c])
    ensures !IsSubstring(rules[i].1[k], Lower(merchant))
  {
    LowerIsLowered(merchant);
    UpperNeverInLowered(rules[i].1[k], Lower(merchant), c);
  }

  /**
   * Running `assign_category` again with the same rules leaves the category as the
   * first run set it: the result depends only on the merchant, which is never changed.
   */
  method AssignCategoryTwice(t: Transaction, rules: Rules)
    modifies t
    ensures t.category == Category(rules, t.merchant)
  {
    var first := AssignCategory(t, rules);
    var once := t.category;
    var second := AssignCategory(first, rules);
    assert t.category == once;
  }

  /** The worked rules: groceries by "whole foods", then dining by "foods". */
  predicate IsExampleRules(rules: Rules) {
    rules == [("Groceries", ["whole foods"]), ("Dining", ["foods"])]
  }

  /** Both rules match "Whole Foods Market"; the earlier rule wins. */
  lemma GroceriesExample(rules: Rules, merchant: string)
    requires IsExampleRules(rules) && merchant == "Whole Foods Market"
    ensures Category(rules, merchant) == "Groceries"
  {
    WholeFoodsLowered(merchant);
    assert "whole foods" <= Lower(merchant)[0..];
    FirstMatchWins(rules, merchant, 0, 0);
  }

  lemma WholeFoodsLowered(merchant: string)
    requires merchant == "Whole Foods Market"
    ensures "whole foods" <= Lower(merchant)
  {
    var keyword := "whole foods";
    assert merchant[0] == 'W' && merchant[6] == 'F';
    assert forall i | 0 <= i < |keyword| && i != 0 && i != 6 :: merchant[i] == keyword[i];
    LowerPrefix(merchant, keyword);
  }


  /** No keyword occurs in "Unknown Shop", so it falls back to "Uncategorized". */
  lemma FallbackExample(rules: Rules, merchant: string)
    requires IsExampleRules(rules) && merchant == "Unknown Shop"
    ensures Category(rules, merchant) == Uncategorized
  {
    assert forall i | 0 <= i < |merchant| :: merchant[i] != 'f' && merchant[i] != 'F';
    AbsentCharNotSubstring("whole foods", Lower(merchant), 6);
    AbsentCharNotSubstring("foods", Lower(merchant), 0);
    NoMatchIsUncategorized(rules, merchant);
  }
}
