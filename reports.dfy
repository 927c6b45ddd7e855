/** What `list_expenses` and `show_totals` present, leaving out the console
    layout: the expenses in file order, or the category totals sorted by
    `sorted(totals.items(), key=lambda x: x[1], reverse=True)`. */
module Reports {
  import opened Records
  import opened Totals

  /** A category with its total, as `totals.items()` yields it. */
  datatype Entry = Entry(category: string, total: int)

  /** Totals never increase from one entry to any later one. */
  predicate NonIncreasing(s: seq<Entry>) {
    forall i, j :: 0 <= i < j < |s| ==> s[i].total >= s[j].total
  }

  /** The entries of `s` whose total is `v`, in their order in `s`. */
  function WithTotal(s: seq<Entry>, v: int): seq<Entry> {
    if s == [] then []
    else (if s[0].total == v then [s[0]] else []) + WithTotal(s[1..], v)
  }

  /** The entry in front is kept exactly when it carries the total. */
  lemma WithTotalCons(x: Entry, s: seq<Entry>, v: int)
    ensures WithTotal([x] + s, v) == (if x.total == v then [x] else []) + WithTotal(s, v)
  {
    assert ([x] + s)[1..] == s;
  }

  lemma {:induction false} WithTotalAppend(a: seq<Entry>, b: seq<Entry>, v: int)
    ensures WithTotal(a + b, v) == WithTotal(a, v) + WithTotal(b, v)
  {
    if a == [] {
      assert a + b == b;
    } else {
      assert a + b == [a[0]] + (a[1..] + b);
      WithTotalCons(a[0], a[1..] + b, v);
      WithTotalAppend(a[1..], b, v);
    }
  }

  lemma {:induction false} WithTotalNone(s: seq<Entry>, v: int)
    requires forall i :: 0 <= i < |s| ==> s[i].total != v
    ensures WithTotal(s, v) == []
  {
    if s != [] {
      WithTotalNone(s[1..], v);
    }
  }

  /** Puts `e` after every entry whose total is at least its own. */
  function InsertByTotal(sorted: seq<Entry>, e: Entry): seq<Entry> {
    if sorted == [] then [e]
    else if sorted[0].total >= e.total then [sorted[0]] + InsertByTotal(sorted[1..], e)
    else [e] + sorted
  }

  /** Inserting adds `e` and loses nothing. */
  lemma {:induction false} InsertIsPermutation(sorted: seq<Entry>, e: Entry)
    ensures multiset(InsertByTotal(sorted, e)) == multiset(sorted) + multiset{e}
  {
    if sorted != [] {
      assert sorted == [sorted[0]] + sorted[1..];
      if sorted[0].total >= e.total {
        InsertIsPermutation(sorted[1..], e);
      }
    }
  }

  /** A stable sort by total, largest first: Python's `sorted` with
      `reverse=True`, which keeps entries with equal totals in their
      original order. */
  function SortByTotal(items: seq<Entry>): seq<Entry> {
    if items == [] then []
    else InsertByTotal(SortByTotal(items[..|items| - 1]), items[|items| - 1])
  }

  lemma {:induction false} InsertKeepsNonIncreasing(sorted: seq<Entry>, e: Entry)
    requires NonIncreasing(sorted)
    ensures NonIncreasing(InsertByTotal(sorted, e))
  {
    var r := InsertByTotal(sorted, e);
    if sorted != [] && sorted[0].total >= e.total {
      InsertKeepsNonIncreasing(sorted[1..], e);
      var tail := InsertByTotal(sorted[1..], e);
      InsertIsPermutation(sorted[1..], e);
      forall k | 0 <= k < |tail|
        ensures tail[k].total <= sorted[0].total
      {
        assert tail[k] in multiset(tail);
        assert tail[k] in multiset(sorted[1..]) || tail[k] == e;
      }
    }
  }

  /** Inserting `e` into a sorted sequence puts it after every entry of the
      same total. */
  lemma {:induction false} InsertWithTotal(sorted: seq<Entry>, e: Entry, v: int)
    requires NonIncreasing(sorted)
    ensures WithTotal(InsertByTotal(sorted, e), v) ==
            WithTotal(sorted, v) + (if e.total == v then [e] else [])
  {
    if sorted == [] {
    } else {
      var x, rest := sorted[0], sorted[1..];
      assert sorted == [x] + rest;
      WithTotalCons(x, rest, v);
      if x.total >= e.total {
        assert NonIncreasing(rest) by {
          forall i, j | 0 <= i < j < |rest| ensures rest[i].total >= rest[j].total {
            assert rest[i] == sorted[i + 1] && rest[j] == sorted[j + 1];
          }
        }
        InsertWithTotal(rest, e, v);
        WithTotalCons(x, InsertByTotal(rest, e), v);
      } else {
        WithTotalCons(e, sorted, v);
        if e.total == v {
          forall i | 0 <= i < |sorted| ensures sorted[i].total != v {
            assert sorted[0].total >= sorted[i].total;
          }
          WithTotalNone(sorted, v);
        }
      }
    }
  }

  /** The sorted totals are in non-increasing order. */
  lemma {:induction false} SortedNonIncreasing(items: seq<Entry>)
    ensures NonIncreasing(SortByTotal(items))
  {
    if items != [] {
      SortedNonIncreasing(items[..|items| - 1]);
      InsertKeepsNonIncreasing(SortByTotal(items[..|items| - 1]), items[|items| - 1]);
    }
  }

  /** The sorted totals are a rearrangement of the totals. */
  lemma {:induction false} SortedIsPermutation(items: seq<Entry>)
    ensures multiset(SortByTotal(items)) == multiset(items)
  {
    if items != [] {
      SortedIsPermutation(items[..|items| - 1]);
      InsertIsPermutation(SortByTotal(items[..|items| - 1]), items[|items| - 1]);
      assert items == items[..|items| - 1] + [items[|items| - 1]];
    }
  }

  /** Entries with equal totals keep their original order: for every total,
      the entries carrying it appear in the sorted sequence in the same order
      as in the input. */
  lemma {:induction false} SortedIsStable(items: seq<Entry>, v: int)
    ensures WithTotal(SortByTotal(items), v) == WithTotal(items, v)
  {
    if items != [] {
      var init := items[..|items| - 1];
      var last := items[|items| - 1];
      var sortedInit := SortByTotal(init);
      SortedIsStable(init, v);
      SortedNonIncreasing(init);
      InsertWithTotal(sortedInit, last, v);
      assert SortByTotal(items) == InsertByTotal(sortedInit, last);
      assert items == init + [last];
      WithTotalAppend(init, [last], v);
      assert WithTotal([last], v) == (if last.total == v then [last] else []) by {
        assert [last][1..] == [];
      }
    }
  }

  /** The entries `totals.items()` yields, in key order. */
  function TotalsItems(es: seq<Expense>): seq<Entry> {
    var cats := Categories(es);
    seq(|cats|, i requires 0 <= i < |cats| => Entry(cats[i], CategoryTotal(es, cats[i])))
  }

  /** The items name every category that occurs, each once, in order of
      first appearance, and pair it with the sum of its amounts. */
  lemma TotalsItemsMeaning(es: seq<Expense>)
    ensures var items := TotalsItems(es);
            && (forall i :: 0 <= i < |items| ==> items[i].category == Categories(es)[i])
            && (forall i, j :: 0 <= i < j < |items| ==> items[i].category != items[j].category)
            && (forall c :: c in CategorySet(es) <==> exists i :: 0 <= i < |items| && items[i].category == c)
            && (forall i :: 0 <= i < |items| ==> items[i].total == CategoryTotal(es, items[i].category))
  {
    var items := TotalsItems(es);
    CategoriesListsEachOnce(es);
    forall c
      ensures c in CategorySet(es) <==> exists i :: 0 <= i < |items| && items[i].category == c
    {
      if c in CategorySet(es) {
        var i :| 0 <= i < |Categories(es)| && Categories(es)[i] == c;
        assert items[i].category == c;
      }
    }
  }

  /** What `show_totals` presents. */
  datatype Summary = NothingToSummarise | Ranking(entries: seq<Entry>)

  /** `show_totals`: the "nothing to summarise" message when there are no
      totals, otherwise every category with its total, largest first. */
  function ShowTotals(es: seq<Expense>): Summary {
    if Categories(es) == [] then NothingToSummarise else Ranking(SortByTotal(TotalsItems(es)))
  }

  /** The summary is empty exactly when there are no expenses; otherwise it
      lists every category once with its total, largest first, ties in order
      of first appearance. */
  lemma ShowTotalsMeaning(es: seq<Expense>)
    ensures ShowTotals(es) == NothingToSummarise <==> es == []
    ensures ShowTotals(es).Ranking? ==>
              && NonIncreasing(ShowTotals(es).entries)
              && multiset(ShowTotals(es).entries) == multiset(TotalsItems(es))
              && forall v :: WithTotal(ShowTotals(es).entries, v) == WithTotal(TotalsItems(es), v)
  {
    if ShowTotals(es).Ranking? {
      SortedNonIncreasing(TotalsItems(es));
      SortedIsPermutation(TotalsItems(es));
      forall v ensures WithTotal(ShowTotals(es).entries, v) == WithTotal(TotalsItems(es), v) {
        SortedIsStable(TotalsItems(es), v);
      }
    }
  }

  /** What `list_expenses` presents. */
  datatype Listing = NothingRecorded | Table(expenses: seq<Expense>)

  /** `list_expenses`: the "no expenses" message for an empty file, otherwise
      every expense in file order. */
  function ListExpenses(es: seq<Expense>): Listing {
    if es == [] then NothingRecorded else Table(es)
  }

  /** Listing a file that reads: the "no expenses" message exactly when the
      file has no rows, and otherwise one expense per row, in file order,
      each the row as `read_expenses` converts it. */
  lemma ListingOfFile(rows: seq<Row>)
    requires ReadAll(rows).Success?
    ensures ListExpenses(ReadAll(rows).value) == NothingRecorded <==> rows == []
    ensures ListExpenses(ReadAll(rows).value).Table? ==>
              var shown := ListExpenses(ReadAll(rows).value).expenses;
              && |shown| == |rows|
              && forall i :: 0 <= i < |rows| ==> shown[i] == ReadRow(rows[i]).value
  {
  }

  /** Groceries 10.00 and 5.50 and Transport 3.00 are summarised as
      Groceries 15.50 followed by Transport 3.00. */
  lemma GroceriesBeforeTransport(es: seq<Expense>)
    requires es == [Expense("2024-03-01", "Tesco", 1000, "Groceries"),
                    Expense("2024-03-02", "Aldi", 550, "Groceries"),
                    Expense("2024-03-03", "Bus", 300, "Transport")]
    ensures ShowTotals(es) == Ranking([Entry("Groceries", 1550), Entry("Transport", 300)])
  {
    GroceriesAndTransport(es);
    var items := TotalsItems(es);
    assert items == [Entry("Groceries", 1550), Entry("Transport", 300)];
    assert items[..1][..0] == [];
    assert SortByTotal(items[..1]) == [Entry("Groceries", 1550)];
    assert InsertByTotal([Entry("Groceries", 1550)], Entry("Transport", 300))
        == [Entry("Groceries", 1550)] + InsertByTotal([], Entry("Transport", 300));
  }
}
