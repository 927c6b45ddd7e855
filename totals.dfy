/** `total_by_category`: the amounts of all expenses summed per category,
    into a dictionary whose keys keep the order in which each category was
    first met. */
module Totals {
  import opened Records

  /** The sum of the amounts of the expenses filed under `cat`. */
  function CategoryTotal(es: seq<Expense>, cat: string): int {
    if es == [] then 0
    else
      var last := es[|es| - 1];
      CategoryTotal(es[..|es| - 1], cat) + (if last.category == cat then last.amount else 0)
  }

  /** The sum of all amounts. */
  function GrandTotal(es: seq<Expense>): int {
    if es == [] then 0 else GrandTotal(es[..|es| - 1]) + es[|es| - 1].amount
  }

  predicate Distinct(cats: seq<string>) {
    forall i, j :: 0 <= i < j < |cats| ==> cats[i] != cats[j]
  }

  /** The categories that occur among the expenses. */
  function CategorySet(es: seq<Expense>): set<string> {
    if es == [] then {} else CategorySet(es[..|es| - 1]) + {es[|es| - 1].category}
  }

  /** A category occurs exactly when some expense is filed under it. */
  lemma {:induction false} CategorySetMembers(es: seq<Expense>, c: string)
    ensures c in CategorySet(es) <==> exists i :: 0 <= i < |es| && es[i].category == c
  {
    if es != [] {
      var init := es[..|es| - 1];
      CategorySetMembers(init, c);
      if c in CategorySet(init) {
        var i :| 0 <= i < |init| && init[i].category == c;
        assert es[i] == init[i];
      }
      if exists i :: 0 <= i < |es| && es[i].category == c {
        var i :| 0 <= i < |es| && es[i].category == c;
        if i < |init| {
          assert init[i] == es[i];
        }
      }
    }
  }

  /** The categories that occur, each once, in the order of first appearance:
      the key order of the dictionary `total_by_category` builds. */
  function Categories(es: seq<Expense>): seq<string> {
    if es == [] then []
    else
      var prev := Categories(es[..|es| - 1]);
      var c := es[|es| - 1].category;
      if c in prev then prev else prev + [c]
  }

  /** Each category is listed once, and exactly the categories that occur
      are listed. */
  lemma {:induction false} CategoriesListsEachOnce(es: seq<Expense>)
    ensures Distinct(Categories(es))
    ensures forall c :: c in Categories(es) <==> c in CategorySet(es)
  {
    if es != [] {
      CategoriesListsEachOnce(es[..|es| - 1]);
    }
  }

  /** A category that does not occur has total zero. */
  lemma {:induction false} AbsentCategoryTotal(es: seq<Expense>, cat: string)
    requires cat !in CategorySet(es)
    ensures CategoryTotal(es, cat) == 0
  {
    if es != [] {
      AbsentCategoryTotal(es[..|es| - 1], cat);
    }
  }

  /** The sum, over the categories `cats`, of their totals in `es`. */
  function SumOfTotals(cats: seq<string>, es: seq<Expense>): int {
    if cats == [] then 0
    else SumOfTotals(cats[..|cats| - 1], es) + CategoryTotal(es, cats[|cats| - 1])
  }

  /** Adding one expense adds its amount to the sum over any list of distinct
      categories that contains its category, and nothing otherwise. */
  lemma {:induction false} SumOfTotalsStep(cats: seq<string>, es: seq<Expense>, e: Expense)
    requires Distinct(cats)
    ensures SumOfTotals(cats, es + [e]) ==
            SumOfTotals(cats, es) + (if e.category in cats then e.amount else 0)
  {
    if cats != [] {
      var init := cats[..|cats| - 1];
      var c := cats[|cats| - 1];
      assert (es + [e])[..|es + [e]| - 1] == es;
      SumOfTotalsStep(init, es, e);
      assert e.category in cats <==> e.category in init || e.category == c;
      assert c !in init;
    }
  }

  /** The per-category totals add up to the total of all amounts. */
  lemma {:induction false} TotalsAddUp(es: seq<Expense>)
    ensures SumOfTotals(Categories(es), es) == GrandTotal(es)
  {
    if es != [] {
      var init := es[..|es| - 1];
      var e := es[|es| - 1];
      assert init + [e] == es;
      var prev := Categories(init);
      TotalsAddUp(init);
      CategoriesListsEachOnce(init);
      SumOfTotalsStep(prev, init, e);
      if e.category !in prev {
        AbsentCategoryTotal(init, e.category);
        assert (prev + [e.category])[..|prev|] == prev;
      }
    }
  }

  /** One more expense adds its amount to its own category's total only. */
  lemma CategoryTotalSnoc(es: seq<Expense>, e: Expense)
    ensures forall c :: CategoryTotal(es + [e], c) ==
                        CategoryTotal(es, c) + (if e.category == c then e.amount else 0)
  {
    assert (es + [e])[..|es|] == es;
  }

  /** One more expense adds its category to the set. */
  lemma CategorySetSnoc(es: seq<Expense>, e: Expense)
    ensures CategorySet(es + [e]) == CategorySet(es) + {e.category}
  {
    assert (es + [e])[..|es|] == es;
  }

  /** One more expense appends its category if it is new. */
  lemma CategoriesSnoc(es: seq<Expense>, e: Expense)
    ensures Categories(es + [e]) ==
            if e.category in Categories(es) then Categories(es) else Categories(es) + [e.category]
  {
    assert (es + [e])[..|es|] == es;
  }

  /** `order` and `totals` are what `total_by_category` holds after the
      expenses `es`: the key order, the keys, and the sum per key. */
  predicate Tallied(es: seq<Expense>, order: seq<string>, totals: map<string, int>) {
    && order == Categories(es)
    && totals.Keys == CategorySet(es)
    && forall c :: c in totals ==> totals[c] == CategoryTotal(es, c)
  }

  /** Adding one expense's amount to its category's entry, creating the
      entry at the end if it is new, keeps the tally right. */
  lemma TallyStep(es: seq<Expense>, e: Expense, order: seq<string>, totals: map<string, int>)
    requires Tallied(es, order, totals)
    ensures Tallied(es + [e],
                    if e.category in totals then order else order + [e.category],
                    totals[e.category := (if e.category in totals then totals[e.category] else 0) + e.amount])
  {
    CategorySetSnoc(es, e);
    CategoriesSnoc(es, e);
    CategoriesListsEachOnce(es);
    CategoryTotalSnoc(es, e);
    if e.category !in totals {
      AbsentCategoryTotal(es, e.category);
    }
  }

  /** `total_by_category()` on the expenses read from the file: a dictionary
      whose keys are exactly the categories that occur, in order of first
      appearance, each mapped to the sum of its expenses' amounts. */
  method TotalByCategory(expenses: seq<Expense>) returns (totals: map<string, int>, order: seq<string>)
    ensures order == Categories(expenses)
    ensures totals.Keys == CategorySet(expenses)
    ensures forall c :: c in totals ==> totals[c] == CategoryTotal(expenses, c)
  {
    totals := map[];
    order := [];
    ghost var done: seq<Expense> := [];
    var i := 0;
    while i < |expenses|
      invariant 0 <= i <= |expenses| && done == expenses[..i]
      invariant Tallied(done, order, totals)
    {
      var e := expenses[i];
      TallyStep(done, e, order, totals);
      var before := if e.category in totals then totals[e.category] else 0;
      if e.category !in totals {
        order := order + [e.category];
      }
      totals := totals[e.category := before + e.amount];
      done := done + [e];
      i := i + 1;
    }
    assert done == expenses;
  }

  /** Groceries 10.00, Groceries 5.50 and Transport 3.00 total Groceries
      15.50 and Transport 3.00, with Groceries met first. */
  lemma GroceriesAndTransport(es: seq<Expense>)
    requires es == [Expense("2024-03-01", "Tesco", 1000, "Groceries"),
                    Expense("2024-03-02", "Aldi", 550, "Groceries"),
                    Expense("2024-03-03", "Bus", 300, "Transport")]
    ensures Categories(es) == ["Groceries", "Transport"]
    ensures CategoryTotal(es, "Groceries") == 1550 && CategoryTotal(es, "Transport") == 300
  {
    assert es[..1][..0] == [];
    assert es[..2][..1] == es[..1];
    assert es[..3 - 1] == es[..2];
    assert Categories(es[..1]) == ["Groceries"];
    assert Categories(es[..2]) == ["Groceries"];
    assert CategoryTotal(es[..1], "Groceries") == 1000;
    assert CategoryTotal(es[..1], "Transport") == 0;
    assert CategoryTotal(es[..2], "Groceries") == 1550;
    assert CategoryTotal(es[..2], "Transport") == 0;
  }
}
