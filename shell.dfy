/** The menu loop of `main`: one line is read per round, `1` adds an
    expense through the prompts, `2` lists the expenses, `3` shows the
    totals, `4` says goodbye and ends the loop, and anything else is
    answered with an error message before the menu is shown again. The
    console is replaced by scripted input: the menu answers in order, and
    the answers to the add-expense prompts, one set per `1`. */
module Shell {
  import opened Wrappers
  import opened Text
  import opened Categoriser
  import opened Dates
  import opened Money
  import opened Records
  import opened Totals
  import opened Reports

  /** The answers given to the prompts of `add_expense_from_prompt`, as
      typed: the date, the description, the amount (the number `_get_float`
      finally accepted, in hundredths) and the optional category. */
  datatype Form = Form(date: string, description: string, amount: int, category: string)

  /** What one round of the menu shows or does. */
  datatype Event =
    | Saved(row: Row)
    | Listed(listing: Listing)
    | Summarised(summary: Summary)
    | InvalidOption
    | Bye

  /** Why the loop ended: the user chose `4`; the input ran out (`input()`
      raises `EOFError`); or an exception escaped, since neither `main` nor
      the prompt code catches the `ValueError` of a bad date or of an amount
      in the file that does not convert. */
  datatype Halt =
    | Quit
    | EndOfInput
    | AddFailed(addError: AddError)
    | ReadFailed(readError: ReadError)

  /** The state between two rounds: the rows in the file, the input not yet
      read, and what has been shown so far. */
  datatype Session = Session(rows: seq<Row>, choices: seq<string>, forms: seq<Form>, events: seq<Event>)

  /** The outcome of one round: go round again, or leave the loop. */
  datatype Step = Continue(next: Session) | Stop(halt: Halt, last: Session)

  /** `input(...).strip() or None`: the category typed, if any. */
  function PromptCategory(text: string): (c: Option<string>)
    ensures c.None? <==> forall k :: 0 <= k < |text| ==> IsSpace(text[k])
    ensures c.Some? ==> c.value == Strip(text) && !IsBlank(c.value)
  {
    BlankIffAllSpace(text);
    StripIdempotent(text);
    var t := Strip(text);
    if t == [] then None else Some(t)
  }

  /** `add_expense_from_prompt`: the stripped answers passed to `add_expense`. */
  function AddFromPrompt(form: Form): Result<Row, AddError> {
    BuildRow(Strip(form.date), Strip(form.description), form.amount, PromptCategory(form.category))
  }

  /** What the prompts append: nothing when the stripped date is not one
      `strptime` accepts, and otherwise a row with the stripped description,
      the amount typed, and the category typed or, when the answer is left
      blank, the one inferred from the stripped description. */
  lemma AddFromPromptRow(form: Form)
    ensures AddFromPrompt(form).Success? <==> Accepted(Strip(form.date))
    ensures AddFromPrompt(form).Failure? ==> AddFromPrompt(form).error == InvalidDate(Strip(form.date))
    ensures AddFromPrompt(form).Success? ==>
              var row := AddFromPrompt(form).value;
              && ParseDate(row.date) == ParseDate(Strip(form.date))
              && row.description == Strip(form.description)
              && ParseCents(row.amount) == Some(form.amount)
              && row.category == (if forall k :: 0 <= k < |form.category| ==> IsSpace(form.category[k])
                                  then AutoCategorise(Strip(form.description))
                                  else Strip(form.category))
  {
    var date, description, category := Strip(form.date), Strip(form.description), PromptCategory(form.category);
    BuildRowFailsExactlyOnBadDate(date, description, form.amount, category);
    if AddFromPrompt(form).Success? {
      BuildRowFields(date, description, form.amount, category, AddFromPrompt(form).value);
      StripIdempotent(form.description);
    }
  }

  /** The rows an event reports as appended to the file. */
  function RowsOf(e: Event): seq<Row> {
    if e.Saved? then [e.row] else []
  }

  /** Choice `1`: read the prompt answers and append the row. */
  function AddRound(t: Session): (r: Step)
    ensures t.forms == [] ==> r == Stop(EndOfInput, t)
    ensures t.forms != [] ==> (r.Continue? <==> AddFromPrompt(t.forms[0]).Success?)
    ensures t.forms != [] && r.Stop? ==> r == Stop(AddFailed(AddFromPrompt(t.forms[0]).error), t.(forms := t.forms[1..]))
    ensures r.Continue? ==> && t.forms != []
                            && r.next == t.(forms := t.forms[1..],
                                            rows := t.rows + [AddFromPrompt(t.forms[0]).value],
                                            events := t.events + [Saved(AddFromPrompt(t.forms[0]).value)])
                            && ReadRow(AddFromPrompt(t.forms[0]).value).Success?
  {
    if t.forms == [] then Stop(EndOfInput, t)
    else
      var form := t.forms[0];
      var u := t.(forms := t.forms[1..]);
      match AddFromPrompt(form)
      case Failure(e) => Stop(AddFailed(e), u)
      case Success(row) =>
        ReadBackWrittenRow(Strip(form.date), Strip(form.description), form.amount, PromptCategory(form.category));
        Continue(u.(rows := u.rows + [row], events := u.events + [Saved(row)]))
  }

  /** Choices `2` and `3`: read the file, then list it or show its totals. */
  function ReportRound(t: Session, totals: bool): (r: Step)
    ensures r.Stop? <==> ReadAll(t.rows).Failure?
    ensures r.Stop? ==> r == Stop(ReadFailed(ReadAll(t.rows).error), t)
    ensures r.Continue? ==>
              r.next == t.(events := t.events + [if totals then Summarised(ShowTotals(ReadAll(t.rows).value))
                                                 else Listed(ListExpenses(ReadAll(t.rows).value))])
  {
    match ReadAll(t.rows)
    case Failure(e) => Stop(ReadFailed(e), t)
    case Success(es) =>
      var shown := if totals then Summarised(ShowTotals(es)) else Listed(ListExpenses(es));
      Continue(t.(events := t.events + [shown]))
  }

  /** The line that ends the loop: `4`, once stripped. */
  predicate IsQuit(line: string) {
    Strip(line) == "4"
  }

  /** The line read selects menu option `option` once stripped. */
  predicate Selects(line: string, option: string) {
    Strip(line) == option
  }

  /** One round of the loop: read a line, strip it, and act on it. */
  function StepOnce(s: Session): (r: Step)
    ensures s.choices == [] ==> r == Stop(EndOfInput, s)
    ensures s.choices != [] && Selects(s.choices[0], "1") ==> r == AddRound(s.(choices := s.choices[1..]))
    ensures s.choices != [] && Selects(s.choices[0], "2") ==> r == ReportRound(s.(choices := s.choices[1..]), false)
    ensures s.choices != [] && Selects(s.choices[0], "3") ==> r == ReportRound(s.(choices := s.choices[1..]), true)
    ensures r.Stop? && r.halt == Quit <==> s.choices != [] && IsQuit(s.choices[0])
    ensures r.Continue? ==> && s.choices != []
                            && r.next.choices == s.choices[1..]
                            && |r.next.events| == |s.events| + 1
                            && r.next.events == s.events + [r.next.events[|s.events|]]
                            && r.next.rows == s.rows + RowsOf(r.next.events[|s.events|])
                            && (r.next.events[|s.events|].Saved? ==> ReadRow(r.next.events[|s.events|].row).Success?)
    ensures r.Stop? ==> && r.last.rows == s.rows
                        && (r.last.events == s.events || r.last.events == s.events + [Bye])
                        && (s.choices != [] ==> r.last.choices == s.choices[1..])
                        && (r.halt.ReadFailed? ==> ReadAll(s.rows).Failure?)
  {
    if s.choices == [] then Stop(EndOfInput, s)
    else
      var choice := Strip(s.choices[0]);
      var t := s.(choices := s.choices[1..]);
      if choice == "1" then AddRound(t)
      else if choice == "2" then ReportRound(t, false)
      else if choice == "3" then ReportRound(t, true)
      else if choice == "4" then Stop(Quit, t.(events := t.events + [Bye]))
      else Continue(t.(events := t.events + [InvalidOption]))
  }

  /** The loop run to its end: why it ended, and the final state. */
  function Run(s: Session): (Halt, Session)
    decreases |s.choices|
  {
    match StepOnce(s)
    case Stop(h, last) => (h, last)
    case Continue(next) => Run(next)
  }

  /** A choice other than `1` to `4` shows the error message, leaves the
      file alone and goes round again. */
  lemma InvalidChoiceContinues(s: Session)
    requires s.choices != []
    requires Strip(s.choices[0]) !in {"1", "2", "3", "4"}
    ensures StepOnce(s) == Continue(s.(choices := s.choices[1..], events := s.events + [InvalidOption]))
    ensures Run(s) == Run(s.(choices := s.choices[1..], events := s.events + [InvalidOption]))
  {
  }

  /** Listing and showing totals never change the file. */
  lemma ReportsLeaveFileAlone(s: Session)
    requires s.choices != []
    requires Strip(s.choices[0]) in {"2", "3"}
    ensures StepOnce(s).Continue? ==> StepOnce(s).next.rows == s.rows
    ensures StepOnce(s).Stop? ==> StepOnce(s).halt.ReadFailed? && StepOnce(s).last.rows == s.rows
  {
  }

  /** `k` is the position of the first choice that reads `4`. */
  predicate FirstFourAt(choices: seq<string>, k: int) {
    && 0 <= k < |choices| && IsQuit(choices[k])
    && forall j :: 0 <= j < k ==> !IsQuit(choices[j])
  }

  /** Skipping a choice that is not `4` moves the first `4` down by one. */
  lemma FirstFourShift(choices: seq<string>, k: int)
    requires choices != [] && !IsQuit(choices[0])
    requires FirstFourAt(choices[1..], k)
    ensures FirstFourAt(choices, k + 1)
    ensures choices[1..][k + 1..] == choices[k + 2..]
  {
    forall j | 0 <= j < k + 1
      ensures !IsQuit(choices[j])
    {
      if j > 0 {
        assert choices[j] == choices[1..][j - 1];
      }
    }
  }

  /** The loop ends with "Bye" only on a `4`, and then on the first `4` of
      the input, with the input after it left unread. */
  lemma {:induction false} QuitOnlyAtFirstFour(s: Session)
    requires Run(s).0 == Quit
    decreases |s.choices|
    ensures exists k :: FirstFourAt(s.choices, k) && Run(s).1.choices == s.choices[k + 1..]
  {
    var step := StepOnce(s);
    if step.Stop? {
      assert Run(s) == (step.halt, step.last);
      assert FirstFourAt(s.choices, 0);
      assert Run(s).1.choices == s.choices[0 + 1..];
    } else {
      var next := step.next;
      assert Run(s) == Run(next);
      QuitOnlyAtFirstFour(next);
      var k :| FirstFourAt(next.choices, k) && Run(next).1.choices == next.choices[k + 1..];
      FirstFourShift(s.choices, k);
    }
  }

  /** The rows of the `Saved` events, in order. */
  function SavedRows(events: seq<Event>): seq<Row> {
    if events == [] then [] else RowsOf(events[0]) + SavedRows(events[1..])
  }

  /** The events shown before are kept, and the file grows by exactly the
      rows reported as saved, in the order they were saved. */
  lemma {:induction false} FileGrowsBySavedRows(s: Session)
    ensures |s.events| <= |Run(s).1.events| && Run(s).1.events[..|s.events|] == s.events
    ensures Run(s).1.rows == s.rows + SavedRows(Run(s).1.events[|s.events|..])
    decreases |s.choices|
  {
    var step := StepOnce(s);
    if step.Stop? {
      var last := step.last;
      assert Run(s).1 == last;
      var tail := last.events[|s.events|..];
      assert tail == [] || tail == [Bye];
      assert SavedRows(tail) == [] by {
        if tail == [Bye] {
          assert tail[1..] == [];
        }
      }
      assert last.rows == s.rows + [];
    } else {
      var next := step.next;
      assert Run(s) == Run(next);
      FileGrowsBySavedRows(next);
      var fin := Run(next).1;
      SavedRowsStep(s.events, s.rows, next.events[|s.events|], next.events, next.rows, fin.events, fin.rows);
    }
  }

  /** One round's event and rows, followed by the rest of the run. */
  lemma SavedRowsStep(events: seq<Event>, rows: seq<Row>, e: Event,
                      nextEvents: seq<Event>, nextRows: seq<Row>,
                      finEvents: seq<Event>, finRows: seq<Row>)
    requires nextEvents == events + [e] && nextRows == rows + RowsOf(e)
    requires |nextEvents| <= |finEvents| && finEvents[..|nextEvents|] == nextEvents
    requires finRows == nextRows + SavedRows(finEvents[|nextEvents|..])
    ensures |events| <= |finEvents| && finEvents[..|events|] == events
    ensures finRows == rows + SavedRows(finEvents[|events|..])
  {
    var n := |events|;
    var later := finEvents[n + 1..];
    assert finEvents[..n] == finEvents[..n + 1][..n];
    assert finEvents[n] == finEvents[..n + 1][n];
    assert finEvents[n..] == [e] + later;
    assert ([e] + later)[1..] == later;
  }

  /** A file whose rows all read stays readable: the rows the loop appends
      always read back, so reading never fails when it did not fail at
      the start. */
  lemma {:induction false} ReadableFileStaysReadable(s: Session)
    requires ReadAll(s.rows).Success?
    ensures ReadAll(Run(s).1.rows).Success?
    ensures !Run(s).0.ReadFailed?
    decreases |s.choices|
  {
    var step := StepOnce(s);
    if step.Continue? {
      var next := step.next;
      assert Run(s) == Run(next);
      var e := next.events[|s.events|];
      forall i | 0 <= i < |next.rows|
        ensures ReadRow(next.rows[i]).Success?
      {
        if i >= |s.rows| {
          assert next.rows[i] == e.row;
        } else {
          assert next.rows[i] == s.rows[i];
        }
      }
      ReadableFileStaysReadable(next);
    }
  }

  /** Choice `1` with answers that `add_expense` accepts appends their row
      and records it, consuming one set of answers. */
  lemma AddChoiceSaves(s: Session, row: Row)
    requires s.choices != [] && Selects(s.choices[0], "1")
    requires s.forms != [] && AddFromPrompt(s.forms[0]) == Success(row)
    ensures StepOnce(s) == Continue(s.(choices := s.choices[1..], forms := s.forms[1..],
                                       rows := s.rows + [row], events := s.events + [Saved(row)]))
  {
  }

  /** Choices `2` and `3` on a file that reads show the listing or the
      totals of what it holds, and change nothing else. */
  lemma ReportChoiceShows(s: Session, es: seq<Expense>)
    requires s.choices != [] && (Selects(s.choices[0], "2") || Selects(s.choices[0], "3"))
    requires ReadAll(s.rows) == Success(es)
    ensures StepOnce(s) == Continue(s.(choices := s.choices[1..],
                                       events := s.events + [if Selects(s.choices[0], "3") then Summarised(ShowTotals(es))
                                                             else Listed(ListExpenses(es))]))
  {
  }

  /** Choice `4` says goodbye and ends the loop. */
  lemma QuitChoiceEnds(s: Session)
    requires s.choices != [] && IsQuit(s.choices[0])
    ensures StepOnce(s) == Stop(Quit, s.(choices := s.choices[1..], events := s.events + [Bye]))
  {
  }

  /** The blank-category Tesco answers make the prompts append the row
      `2024-03-01,Tesco Express,12.50,Groceries`. */
  lemma TescoFormSaved(form: Form)
    requires form == Form("2024-03-01", "Tesco Express", 1250, "")
    ensures AddFromPrompt(form) == Success(Row("2024-03-01", "Tesco Express", "12.50", "Groceries"))
  {
    assert Strip(form.date) == form.date;
    assert Strip(form.description) == form.description;
    assert PromptCategory(form.category) == None;
    TescoRow(form.date, form.description, form.amount);
  }

  /** Listing a file that reads and then quitting shows the listing and
      "Bye" and leaves the file as it was. */
  lemma ListThenQuit(s: Session, es: seq<Expense>, list: string, quit: string)
    requires s.choices == [list, quit] && Selects(list, "2") && IsQuit(quit)
    requires ReadAll(s.rows) == Success(es)
    ensures Run(s) == (Quit, s.(choices := [], events := s.events + [Listed(ListExpenses(es)), Bye]))
  {
    ReportChoiceShows(s, es);
    assert !Selects(list, "3");
    var next := s.(choices := [quit], events := s.events + [Listed(ListExpenses(es))]);
    assert s.choices[1..] == [quit];
    assert StepOnce(s) == Continue(next);
    QuitChoiceEnds(next);
    assert next.choices[1..] == [];
    assert next.events + [Bye] == s.events + [Listed(ListExpenses(es)), Bye];
  }

  /** A round that goes on leaves the rest of the loop to the next state. */
  lemma RunContinues(s: Session, next: Session)
    requires StepOnce(s) == Continue(next)
    ensures Run(s) == Run(next)
  {
  }

  /** From an empty file, adding one expense, listing and quitting leaves
      that one row in the file and lists what it reads back as. */
  lemma AddListQuitFromEmpty(s: Session, form: Form, row: Row, es: seq<Expense>, add: string, list: string, quit: string)
    requires s == Session([], [add, list, quit], [form], [])
    requires Selects(add, "1") && Selects(list, "2") && IsQuit(quit)
    requires AddFromPrompt(form) == Success(row) && ReadAll([row]) == Success(es)
    ensures Run(s) == (Quit, Session([row], [], [], [Saved(row), Listed(ListExpenses(es)), Bye]))
  {
    var s1 := Session([row], [list, quit], [], [Saved(row)]);
    AddFirstForm(s, form, row, add, s1);
    RunContinues(s, s1);
    ListThenQuit(s1, es, list, quit);
    var shown := [Saved(row), Listed(ListExpenses(es)), Bye];
    assert s1.events + [Listed(ListExpenses(es)), Bye] == shown;
    assert s1.(choices := [], events := shown) == Session([row], [], [], shown);
  }

  /** The first round of `AddListQuitFromEmpty`. */
  lemma AddFirstForm(s: Session, form: Form, row: Row, add: string, s1: Session)
    requires s.rows == [] && s.events == [] && s.choices != [] && s.choices[0] == add && s.forms == [form]
    requires Selects(add, "1") && AddFromPrompt(form) == Success(row)
    requires s1 == Session([row], s.choices[1..], [], [Saved(row)])
    ensures StepOnce(s) == Continue(s1)
  {
    AddChoiceSaves(s, row);
    assert s.forms[1..] == [];
    assert s.rows + [row] == [row];
    assert s.events + [Saved(row)] == [Saved(row)];
  }

  /** Adding "Tesco Express" for 12.50 on 2024-03-01 with the category left
      blank, then listing, then quitting (any three lines that read `1`,
      `2` and `4` once stripped): the file gains the row with the inferred
      category "Groceries", the listing shows that one expense, and the
      loop ends with "Bye". */
  lemma AddListQuit(form: Form, add: string, list: string, quit: string, s: Session)
    requires form == Form("2024-03-01", "Tesco Express", 1250, "")
    requires Selects(add, "1") && Selects(list, "2") && IsQuit(quit)
    requires s == Session([], [add, list, quit], [form], [])
    ensures var row := Row("2024-03-01", "Tesco Express", "12.50", "Groceries");
            Run(s) == (Quit, Session([row], [], [], [Saved(row),
                                                     Listed(Table([Expense("2024-03-01", "Tesco Express", 1250, "Groceries")])),
                                                     Bye]))
  {
    var row := Row("2024-03-01", "Tesco Express", "12.50", "Groceries");
    var e := Expense("2024-03-01", "Tesco Express", 1250, "Groceries");
    TescoFormSaved(form);
    TescoReadBack();
    AddListQuitFromEmpty(s, form, row, [e], add, list, quit);
    assert ListExpenses([e]) == Table([e]);
  }

  /** `main`: runs the menu loop over the scripted input against the file,
      and reports why it ended and what it showed. */
  method RunMenu(store: ExpenseStore, choices: seq<string>, forms: seq<Form>)
    returns (halt: Halt, events: seq<Event>)
    modifies store
    ensures halt == Run(Session(old(store.rows), choices, forms, [])).0
    ensures events == Run(Session(old(store.rows), choices, forms, [])).1.events
    ensures store.rows == Run(Session(old(store.rows), choices, forms, [])).1.rows
  {
    ghost var start := Session(store.rows, choices, forms, []);
    var rest, pending := choices, forms;
    events := [];
    while true
      invariant Run(Session(store.rows, rest, pending, events)) == Run(start)
      decreases |rest|
    {
      ghost var s := Session(store.rows, rest, pending, events);
      if rest == [] {
        halt := EndOfInput;
        return;
      }
      var choice := Strip(rest[0]);
      rest := rest[1..];
      if choice == "1" {
        if pending == [] {
          halt := EndOfInput;
          return;
        }
        var form := pending[0];
        pending := pending[1..];
        var res := store.AddExpense(Strip(form.date), Strip(form.description), form.amount,
                                    PromptCategory(form.category));
        match res
        case Failure(e) =>
          halt := AddFailed(e);
          return;
        case Success(row) =>
          events := events + [Saved(row)];
      } else if choice == "2" {
        var read := store.ReadExpenses();
        match read
        case Failure(e) =>
          halt := ReadFailed(e);
          return;
        case Success(es) =>
          events := events + [Listed(ListExpenses(es))];
      } else if choice == "3" {
        var read := store.ReadExpenses();
        match read
        case Failure(e) =>
          halt := ReadFailed(e);
          return;
        case Success(es) =>
          var summary := SummariseTotals(es);
          events := events + [Summarised(summary)];
      } else if choice == "4" {
        events := events + [Bye];
        halt := Quit;
        return;
      } else {
        events := events + [InvalidOption];
      }
    }
  }

  /** `show_totals` on the expenses read: totals from `total_by_category`,
      then sorted by total, largest first. */
  method SummariseTotals(es: seq<Expense>) returns (summary: Summary)
    ensures summary == ShowTotals(es)
  {
    var totals, order := TotalByCategory(es);
    if order == [] {
      return NothingToSummarise;
    }
    CategoriesListsEachOnce(es);
    var items := seq(|order|, i requires 0 <= i < |order| => Entry(order[i], totals[order[i]]));
    assert items == TotalsItems(es);
    summary := Ranking(SortByTotal(items));
  }
}
