/** Expense rows: how `add_expense` builds the row it appends, how
    `read_expenses` reads the rows back, and the data file as a store that
    is appended to and read in full. */
module Records {
  import opened Wrappers
  import opened Text
  import opened Numerals
  import opened Categoriser
  import opened Dates
  import opened Money

  /** A row of the data file: the four text fields, in the column order of
      the header `date,description,amount,category` that
      `ensure_data_file_exists` writes and `add_expense` follows. */
  datatype Row = Row(date: string, description: string, amount: string, category: string)

  /** A row as `read_expenses` returns it: the amount converted to a number. */
  datatype Expense = Expense(date: string, description: string, amount: int, category: string)

  /** `strptime` raised `ValueError`: nothing is appended. */
  datatype AddError = InvalidDate(dateText: string)

  /** `float()` raised `ValueError` on an amount field while reading. */
  datatype ReadError = InvalidAmount(amountText: string)

  /** The category `add_expense` stores: the one supplied unless it is
      missing or blank, otherwise the automatic one. */
  function ChooseCategory(category: Option<string>, description: string): string {
    if category.None? || IsBlank(category.value) then AutoCategorise(description) else category.value
  }

  /** The row `add_expense(date_text, description, amount, category)` appends,
      or the error it raises before appending anything. */
  function BuildRow(dateText: string, description: string, cents: int, category: Option<string>): Result<Row, AddError> {
    var cat := ChooseCategory(category, description);
    match NormaliseDate(dateText)
    case None => Failure(InvalidDate(dateText))
    case Some(date) => Success(Row(date, Strip(description), FormatCents(cents), cat))
  }

  /** A date that `strptime` refuses makes `add_expense` fail, and a date it
      accepts makes it succeed. */
  lemma BuildRowFailsExactlyOnBadDate(dateText: string, description: string, cents: int, category: Option<string>)
    ensures BuildRow(dateText, description, cents, category).Failure? <==> !Accepted(dateText)
    ensures BuildRow(dateText, description, cents, category).Failure? ==>
              BuildRow(dateText, description, cents, category).error == InvalidDate(dateText)
  {
    ParseDateAcceptsGrammar(dateText);
  }

  /** The appended row holds, column by column: the date
      re-written as zero-padded `YYYY-MM-DD` for the same calendar date, the
      stripped description, the amount with exactly two fraction digits
      that reads back as the amount given, and the category. */
  lemma BuildRowFields(dateText: string, description: string, cents: int, category: Option<string>, row: Row)
    requires BuildRow(dateText, description, cents, category) == Success(row)
    ensures |row.date| == 10 && row.date[4] == '-' && row.date[7] == '-'
    ensures AllDigits(row.date[..4]) && AllDigits(row.date[5..7]) && AllDigits(row.date[8..])
    ensures ParseDate(row.date) == ParseDate(dateText)
    ensures row.description == Strip(description)
    ensures TwoDecimals(row.amount)
    ensures ParseCents(row.amount) == Some(cents)
    ensures row.category == ChooseCategory(category, description)
  {
    var date := NormaliseDate(dateText);
    assert date.Some? && row.date == date.value;
    assert row.amount == FormatCents(cents);
    NormaliseDateCanonical(dateText);
    ParseFormatCents(cents);
  }

  /** A category that is given and not blank is stored exactly as given. */
  lemma ExplicitCategoryKept(dateText: string, description: string, cents: int, c: string)
    requires Accepted(dateText) && !IsBlank(c)
    ensures BuildRow(dateText, description, cents, Some(c)).Success?
    ensures BuildRow(dateText, description, cents, Some(c)).value.category == c
  {
    ParseDateAcceptsGrammar(dateText);
  }

  /** A missing or blank category is replaced by the automatic one. */
  lemma MissingCategoryInferred(dateText: string, description: string, cents: int, category: Option<string>)
    requires Accepted(dateText)
    requires category.None? || forall k :: 0 <= k < |category.value| ==> IsSpace(category.value[k])
    ensures BuildRow(dateText, description, cents, category).Success?
    ensures BuildRow(dateText, description, cents, category).value.category == AutoCategorise(description)
  {
    ParseDateAcceptsGrammar(dateText);
    if category.Some? {
      BlankIffAllSpace(category.value);
    }
  }

  /** `read_expenses` on one row. */
  function ReadRow(row: Row): Result<Expense, ReadError> {
    match ParseCents(row.amount)
    case None => Failure(InvalidAmount(row.amount))
    case Some(c) => Success(Expense(row.date, row.description, c, row.category))
  }

  /** `read_expenses` on the whole file: every row converted in file order,
      or the error of the first row whose amount does not convert. */
  function ReadAll(rows: seq<Row>): (r: Result<seq<Expense>, ReadError>)
    ensures r.Success? <==> forall i :: 0 <= i < |rows| ==> ReadRow(rows[i]).Success?
    ensures r.Success? ==> |r.value| == |rows|
                           && forall i :: 0 <= i < |rows| ==> r.value[i] == ReadRow(rows[i]).value
    ensures r.Failure? ==> exists k :: 0 <= k < |rows| && ReadRow(rows[k]) == Failure(r.error)
                                       && forall i :: 0 <= i < k ==> ReadRow(rows[i]).Success?
  {
    if rows == [] then Success([])
    else
      match ReadRow(rows[0])
      case Failure(e) => Failure(e)
      case Success(first) =>
        match ReadAll(rows[1..])
        case Failure(e) =>
          var k :| 0 <= k < |rows[1..]| && ReadRow(rows[1..][k]) == Failure(e)
                   && forall i :: 0 <= i < k ==> ReadRow(rows[1..][i]).Success?;
          assert ReadRow(rows[k + 1]) == Failure(e);
          Failure(e)
        case Success(rest) => Success([first] + rest)
  }

  /** A row that `add_expense` wrote reads back as the expense it was given:
      the normalised date, the stripped description, the same amount and
      the chosen category. */
  lemma ReadBackWrittenRow(dateText: string, description: string, cents: int, category: Option<string>)
    requires BuildRow(dateText, description, cents, category).Success?
    ensures ReadRow(BuildRow(dateText, description, cents, category).value)
            == Success(Expense(NormaliseDate(dateText).value, Strip(description), cents,
                               ChooseCategory(category, description)))
  {
    ParseFormatCents(cents);
  }

  /** Writing "Tesco Express" for 12.50 on 2024-03-01 without a category
      appends the row `2024-03-01,Tesco Express,12.50,Groceries`. */
  lemma TescoRow(dateText: string, description: string, cents: int)
    requires dateText == "2024-03-01" && description == "Tesco Express" && cents == 1250
    ensures BuildRow(dateText, description, cents, None)
            == Success(Row("2024-03-01", "Tesco Express", "12.50", "Groceries"))
  {
    PaddedDateKept(dateText);
    TescoIsGroceries(description);
    TwelveFifty(cents);
    StripUnpadded(description);
    assert ChooseCategory(None, description) == "Groceries";
    BuildRowOnGoodDate(dateText, description, cents, None, dateText);
  }

  /** Reading that row back gives one expense dated "2024-03-01" of 12.50
      in "Groceries". */
  lemma TescoReadBack()
    ensures ReadAll([Row("2024-03-01", "Tesco Express", "12.50", "Groceries")])
            == Success([Expense("2024-03-01", "Tesco Express", 1250, "Groceries")])
  {
    var row := Row("2024-03-01", "Tesco Express", "12.50", "Groceries");
    TwelveFifty(1250);
    ParseFormatCents(1250);
    var e := Expense("2024-03-01", "Tesco Express", 1250, "Groceries");
    assert ReadRow(row) == Success(e);
    var r := ReadAll([row]);
    assert r.Success? && |r.value| == 1 && r.value[0] == e;
    assert r.value == [e];
  }

  /** The row built for a date that normalises to `date`. */
  lemma BuildRowOnGoodDate(dateText: string, description: string, cents: int, category: Option<string>, date: string)
    requires NormaliseDate(dateText) == Some(date)
    ensures BuildRow(dateText, description, cents, category)
            == Success(Row(date, Strip(description), FormatCents(cents), ChooseCategory(category, description)))
  {
  }

  /** The data file: its rows below the header, in file order. */
  class ExpenseStore {
    var rows: seq<Row>

    /** A store holding the rows already in the file. */
    constructor (existing: seq<Row>)
      ensures rows == existing
    {
      rows := existing;
    }

    /** `add_expense`: appends the built row, or raises and appends nothing. */
    method AddExpense(dateText: string, description: string, cents: int, category: Option<string>)
      returns (res: Result<Row, AddError>)
      modifies this
      ensures res == BuildRow(dateText, description, cents, category)
      ensures res.Success? ==> rows == old(rows) + [res.value]
      ensures res.Failure? ==> rows == old(rows)
    {
      var cat := category;
      if cat.None? || IsBlank(cat.value) {
        cat := Some(AutoCategorise(description));
      }
      match ParseDate(dateText)
      case None =>
        res := Failure(InvalidDate(dateText));
      case Some(d) =>
        var row := Row(FormatDate(d), Strip(description), FormatCents(cents), cat.value);
        rows := rows + [row];
        res := Success(row);
    }

    /** `read_expenses`: converts the rows one by one, in file order, and
        stops at the first amount that does not convert. */
    method ReadExpenses() returns (res: Result<seq<Expense>, ReadError>)
      ensures res == ReadAll(rows)
    {
      var acc: seq<Expense> := [];
      var i := 0;
      while i < |rows|
        invariant 0 <= i <= |rows|
        invariant |acc| == i
        invariant forall j :: 0 <= j < i ==> ReadRow(rows[j]).Success? && acc[j] == ReadRow(rows[j]).value
      {
        match ReadRow(rows[i])
        case Failure(e) =>
          ReadAllStopsAtFirstError(rows, i);
          return Failure(e);
        case Success(x) =>
          acc := acc + [x];
        i := i + 1;
      }
      assert acc == ReadAll(rows).value;
      res := Success(acc);
    }
  }

  /** The error `read_expenses` reports is that of the first bad row. */
  lemma {:induction false} ReadAllStopsAtFirstError(rows: seq<Row>, k: nat)
    requires k < |rows| && ReadRow(rows[k]).Failure?
    requires forall i :: 0 <= i < k ==> ReadRow(rows[i]).Success?
    ensures ReadAll(rows) == Failure(ReadRow(rows[k]).error)
  {
    if k > 0 {
      ReadAllStopsAtFirstError(rows[1..], k - 1);
    }
  }
}
