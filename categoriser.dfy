/** Keyword auto-categorisation (`auto_categorise` in src/main.py): the
    lower-cased description is searched for each keyword of an ordered rule
    table, and the category of the first keyword found is the answer. */
module Categoriser {
  import opened Text

  /** A keyword rule: the keyword looked for, and the category it gives. */
  datatype Rule = Rule(keyword: string, category: string)

  /** The rule table `KEYWORD_RULES`, in its insertion order. */
  const KeywordRules: seq<Rule> := [
    Rule("tesco", "Groceries"),
    Rule("sainsbury", "Groceries"),
    Rule("aldi", "Groceries"),
    Rule("uber", "Transport"),
    Rule("tfl", "Transport"),
    Rule("bus", "Transport"),
    Rule("train", "Transport"),
    Rule("netflix", "Entertainment"),
    Rule("prime", "Entertainment"),
    Rule("cinema", "Entertainment"),
    Rule("gym", "Health"),
    Rule("pharmacy", "Health"),
    Rule("boots", "Health")
  ]

  /** The category given when no keyword matches. */
  const Uncategorised: string := "Uncategorised"

  /** The position of the first rule whose keyword occurs in `text`, or
      `|rules|` when there is none: the early-return loop over the table. */
  function FirstMatch(rules: seq<Rule>, text: string): (k: nat)
    ensures k <= |rules|
    ensures k < |rules| ==> Contains(text, rules[k].keyword)
    ensures forall j :: 0 <= j < k ==> !Contains(text, rules[j].keyword)
  {
    if rules == [] then 0
    else if Contains(text, rules[0].keyword) then 0
    else 1 + FirstMatch(rules[1..], text)
  }

  /** The categoriser for a given rule table. */
  function CategoriseWith(rules: seq<Rule>, description: string): (cat: string)
    ensures cat == Uncategorised || exists j :: 0 <= j < |rules| && rules[j].category == cat
  {
    var k := FirstMatch(rules, ToLower(description));
    if k < |rules| then rules[k].category else Uncategorised
  }

  /** `auto_categorise(description)`. */
  function AutoCategorise(description: string): string {
    CategoriseWith(KeywordRules, description)
  }

  /** When the keyword of rule `k` occurs in the lower-cased description and
      no earlier keyword does, the answer is the category of rule `k`. */
  lemma FirstMatchingRuleWins(rules: seq<Rule>, description: string, k: nat)
    requires k < |rules|
    requires Contains(ToLower(description), rules[k].keyword)
    requires forall j :: 0 <= j < k ==> !Contains(ToLower(description), rules[j].keyword)
    ensures CategoriseWith(rules, description) == rules[k].category
  {
    var m := FirstMatch(rules, ToLower(description));
    if m < k {
    } else if m > k {
    }
  }

  /** When no keyword occurs in the lower-cased description, the answer is
      "Uncategorised". */
  lemma NoMatchIsUncategorised(rules: seq<Rule>, description: string)
    requires forall j :: 0 <= j < |rules| ==> !Contains(ToLower(description), rules[j].keyword)
    ensures CategoriseWith(rules, description) == Uncategorised
  {
    var m := FirstMatch(rules, ToLower(description));
    if m < |rules| {
    }
  }

  /** A keyword found at any position and in any letter case is enough: if a
      keyword of the table occurs in the lower-cased description and no
      earlier keyword does, the answer is that keyword's category. */
  lemma {:induction false} KeywordAnywhere(rules: seq<Rule>, description: string, k: nat, i: nat)
    requires k < |rules|
    requires OccursAt(ToLower(description), rules[k].keyword, i)
    requires forall j :: 0 <= j < k ==> !Contains(ToLower(description), rules[j].keyword)
    ensures CategoriseWith(rules, description) == rules[k].category
  {
    ContainsIffOccurs(ToLower(description), rules[k].keyword);
    FirstMatchingRuleWins(rules, description, k);
  }

  /** The answer does not depend on letter case: a description and its
      lower-cased form are categorised alike. */
  lemma {:induction false} CaseInsensitive(rules: seq<Rule>, description: string)
    ensures CategoriseWith(rules, ToLower(description)) == CategoriseWith(rules, description)
  {
    ToLowerIdempotent(description);
  }

  /** Every answer of `auto_categorise` is one of the table's categories or
      "Uncategorised". */
  lemma AutoCategoriseRange(description: string)
    ensures AutoCategorise(description) in
              {"Groceries", "Transport", "Entertainment", "Health", Uncategorised}
  {
    var cat := AutoCategorise(description);
    if cat != Uncategorised {
      var j :| 0 <= j < |KeywordRules| && KeywordRules[j].category == cat;
    }
  }

  /** The description "Tesco Express" is filed under "Groceries". */
  lemma TescoIsGroceries(description: string)
    requires description == "Tesco Express"
    ensures AutoCategorise(description) == "Groceries"
  {
    var text := ToLower(description);
    assert text[..5] == "tesco";
    FirstMatchingRuleWins(KeywordRules, description, 0);
  }

  /** A description that contains none of the keywords falls back. */
  lemma RentIsUncategorised()
    ensures AutoCategorise("Rent") == Uncategorised
  {
    var text := ToLower("Rent");
    assert text == "rent";
    forall j | 0 <= j < |KeywordRules|
      ensures !Contains(text, KeywordRules[j].keyword)
    {
      var kw := KeywordRules[j].keyword;
      ContainsIffOccurs(text, kw);
    }
    NoMatchIsUncategorised(KeywordRules, "Rent");
  }
}
