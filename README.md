# Expense tracker — a Dafny model

This project models the core of a small command-line expense tracker, `src/main.py`. The tracker keeps expenses in a CSV file with the columns `date, description, amount, category`. Its menu loop offers four choices: add an expense, list the expenses, show totals per category, or quit.

The model covers five parts of the tracker:

- **Categorisation.** A description is filed under the category of the first keyword rule whose keyword occurs in its lower-cased text, or under `Uncategorised`.
- **Adding an expense.** The date is checked and normalised as `strptime`/`strftime` with `%Y-%m-%d` would do it. The description is stripped, and the amount is written with two decimals. A missing or blank category is inferred from the description.
- **Reading expenses back.** Each amount field is converted to a number. Reading stops at the first amount that does not convert.
- **Totals per category.** Totals keep first-appearance key order, and the summary sorts them by total, largest first, with a stable sort.
- **The menu loop.** Each round reads one line, strips it, dispatches on it, and ends the loop on `4`.

Modules:

| module | file | what it holds |
|---|---|---|
| `Wrappers` | wrappers.dfy | `Option` and `Result` |
| `Text` | text.dfy | `str.strip`, `str.lower`, the substring test `in` |
| `Numerals` | numerals.dfy | decimal digits, zero padding, `str(n)` for naturals |
| `Categoriser` | categoriser.dfy | `KEYWORD_RULES` and `auto_categorise` |
| `Dates` | dates.dfy | the `%Y-%m-%d` grammar of `strptime`, calendar validity, `strftime` |
| `Money` | money.dfy | `f"{x:.2f}"` on amounts in hundredths, and its reading back |
| `Records` | records.dfy | the row `add_expense` appends, `read_expenses`, and the data file as the class `ExpenseStore` |
| `Totals` | totals.dfy | `total_by_category` as a loop over a `map`, with its reference functions |
| `Reports` | reports.dfy | `list_expenses`, `show_totals` and the stable descending sort |
| `Shell` | shell.dfy | the loop of `main` and `add_expense_from_prompt`, as a step function and as a method over an `ExpenseStore` |

Some modelling choices:

- **Amounts are whole hundredths** (`int`). This is the precision the file stores.
- **The data file is the sequence of its rows below the header.** The class `ExpenseStore` holds it in the field `rows`. `AddExpense` appends to it, and `ReadExpenses` reads all of it.
- **The console is replaced by scripted input.** One queue holds the menu answers. A second queue holds the answers to the add-expense prompts, one set per `1`. Running out of either queue is `input()` raising `EOFError`.
- **Crashes are modelled as halts.** Neither `main` nor `add_expense_from_prompt` catches the `ValueError` that `strptime` raises for a bad date, and neither `main` nor the report functions catch the `ValueError` of an amount in the file that does not convert. Either one ends the program, so the loop stops with `AddFailed` or `ReadFailed`.
- **The stored category is the supplied value unchanged** when it is not blank. `add_expense` does not strip it; only the prompt path does.

## Model

| member | source | states |
|---|---|---|
| Text.LStripDropsLeadingSpace | src/main.py:78 | `lstrip` keeps a suffix of the input, every dropped character is whitespace, and what is kept does not start with whitespace |
| Text.RStripDropsTrailingSpace | src/main.py:78 | `rstrip` keeps a prefix, drops only whitespace, and what is kept does not end with whitespace |
| Text.StripIsTrimmedSlice | src/main.py:78 | `strip()` returns a contiguous slice of its input, everything before and after it is whitespace, and the slice neither starts nor ends with whitespace |
| Text.StripIdempotent | src/main.py:78 | stripping an already stripped text changes nothing, so the description stripped by the prompt is stored as typed after that |
| Text.BlankIffAllSpace | src/main.py:69 | `not s.strip()` holds exactly when every character of `s` is whitespace |
| Text.ToLower | src/main.py:56 | the ASCII letters `A` to `Z` become `a` to `z` and every other character is kept, so the length does not change |
| Text.ToLowerIdempotent | src/main.py:56 | lower-casing twice is the same as lower-casing once |
| Text.ContainsIffOccurs | src/main.py:58 | `kw in text` holds exactly when `kw` occurs at some position of `text` |
| Numerals.Pad2 | src/main.py:74 | two-digit zero padding gives two digits that spell the number |
| Numerals.ValueOfToDecimal | src/main.py:78 | the decimal digits of `n` spell `n` |
| Numerals.ToDecimalOfValue | src/main.py:78 | digits without a leading zero (or a lone `0`) are exactly the decimal form of the number they spell |
| Categoriser.FirstMatch | src/main.py:57-59 | the rule chosen is the first whose keyword occurs in the lower-cased text; no earlier rule matches |
| Categoriser.CategoriseWith | src/main.py:56-60 | the result is `Uncategorised` or the category of one of the rules |
| Categoriser.FirstMatchingRuleWins | src/main.py:57-59 | when rule `k` matches and no earlier rule does, the description gets rule `k`'s category |
| Categoriser.NoMatchIsUncategorised | src/main.py:60 | when no keyword occurs, the category is `Uncategorised` |
| Categoriser.KeywordAnywhere | src/main.py:58 | a keyword matches wherever it occurs in the text, not only at the start |
| Categoriser.CaseInsensitive | src/main.py:56 | a description and its lower-cased form get the same category |
| Categoriser.AutoCategoriseRange | src/main.py:25-39 | with the fixed rules, the result is one of Groceries, Transport, Entertainment, Health or Uncategorised |
| Categoriser.TescoIsGroceries | src/main.py:25-26 | "Tesco Express" is filed under Groceries |
| Categoriser.RentIsUncategorised | src/main.py:60 | "Rent" matches no keyword and is Uncategorised |
| Dates.DaysInMonth | src/main.py:73 | months have 28 to 31 days, and 29 exactly for February of a Gregorian leap year |
| Dates.ParseDate | src/main.py:73 | every date `strptime` returns is a valid calendar date with a year from 1 to 9999 |
| Dates.FormatDate | src/main.py:74 | `strftime("%Y-%m-%d")` gives ten characters `YYYY-MM-DD` whose fields spell the year, month and day |
| Dates.MonthTokenMatchesField | src/main.py:73 | the month pattern followed by `-` matches exactly the one- or two-digit months 1 to 12 |
| Dates.DayTokenMatchesField | src/main.py:73 | the day pattern consumes the whole remaining text exactly when it is a day field |
| Dates.ParseDateAcceptsGrammar | src/main.py:73 | `strptime` accepts a string exactly when it is a four-digit year, `-`, a month field, `-` and a day field that together name a calendar date; the date returned is the year, month and day those fields spell |
| Dates.FormatThenParse | src/main.py:73-74 | every normalised date parses back to the same date |
| Dates.NormaliseDateCanonical | src/main.py:73-74 | a normalised date is zero-padded `YYYY-MM-DD` for the same date, and normalising it again changes nothing |
| Dates.DayFirstRejected | src/main.py:73 | "01-03-2024" is refused |
| Dates.UnpaddedAccepted | src/main.py:73-74 | "2024-3-1" is accepted and stored as "2024-03-01" |
| Dates.PaddedDateKept | src/main.py:73-74 | "2024-03-01" is stored unchanged |
| Dates.LeapDayInLeapYear | src/main.py:73-74 | "2024-02-29" is accepted |
| Dates.NoLeapDayInCenturyYear | src/main.py:73 | "1900-02-29" is refused |
| Money.FormatCents | src/main.py:78 | the amount text ends in a point and exactly two digits, has a minus sign exactly for negative amounts, only digits otherwise, and no leading zero in the whole part except a lone `0` |
| Money.ParseFormatCents | src/main.py:91 | every written amount reads back as the same amount |
| Money.FormatCentsInjective | src/main.py:78 | different amounts are written differently |
| Money.TwelveFifty | src/main.py:78 | 12.5 is written "12.50" |
| Records.BuildRowFailsExactlyOnBadDate | src/main.py:73 | adding fails exactly when `strptime` refuses the date, with that date as the error |
| Records.BuildRowFields | src/main.py:73-78 | the appended row holds the zero-padded date for the same day, the stripped description, a two-decimal amount that reads back as the one given, and the chosen category |
| Records.ExplicitCategoryKept | src/main.py:69-70 | a non-blank category is stored exactly as given |
| Records.MissingCategoryInferred | src/main.py:69-70 | a missing or all-whitespace category is replaced by `auto_categorise(description)` |
| Records.ReadAll | src/main.py:81-93 | reading succeeds exactly when every row's amount converts; the result has one expense per row in file order; on failure the error is that of a bad row with only good rows before it |
| Records.ReadBackWrittenRow | src/main.py:76-92 | a row `add_expense` wrote reads back as the normalised date, stripped description, same amount and chosen category |
| Records.ReadAllStopsAtFirstError | src/main.py:89-91 | the error reported is that of the first row whose amount does not convert |
| Records.TescoRow | src/main.py:63-78 | "Tesco Express", 12.50 on 2024-03-01 without a category appends `2024-03-01,Tesco Express,12.50,Groceries` |
| Records.TescoReadBack | src/main.py:81-93 | that row reads back as one Groceries expense of 12.50 |
| Records.ExpenseStore.AddExpense | src/main.py:63-78 | the result is the built row or the date error; on success the file gains exactly that row at the end, on failure it is unchanged |
| Records.ExpenseStore.ReadExpenses | src/main.py:81-93 | the loop over the rows returns exactly the reading of the whole file, stopping at the first bad amount |
| Totals.CategorySetMembers | src/main.py:100-104 | a category has a key exactly when some expense is filed under it |
| Totals.CategoriesListsEachOnce | src/main.py:100-104 | the key order lists each category that occurs exactly once |
| Totals.AbsentCategoryTotal | src/main.py:103 | a category that does not occur totals zero |
| Totals.TotalsAddUp | src/main.py:96-104 | the per-category totals add up to the sum of all amounts |
| Totals.TallyStep | src/main.py:101-103 | `totals[cat] = totals.get(cat, 0) + amount` keeps the dictionary equal to the totals of the expenses seen so far |
| Totals.TotalByCategory | src/main.py:96-104 | the dictionary's keys are exactly the categories that occur, in order of first appearance, each mapped to the sum of its amounts |
| Totals.GroceriesAndTransport | src/main.py:96-104 | 10.00 and 5.50 of Groceries and 3.00 of Transport total 15.50 and 3.00, Groceries first |
| Reports.InsertIsPermutation | src/main.py:134 | inserting adds the entry and loses none |
| Reports.InsertKeepsNonIncreasing | src/main.py:134 | inserting into a list sorted by total, largest first, keeps it sorted |
| Reports.InsertWithTotal | src/main.py:134 | an inserted entry goes after every entry of the same total |
| Reports.SortedNonIncreasing | src/main.py:134 | the sorted totals never increase |
| Reports.SortedIsPermutation | src/main.py:134 | the sorted entries are a rearrangement of the totals |
| Reports.SortedIsStable | src/main.py:134 | entries with equal totals keep their dictionary order, as Python's stable `sorted` with `reverse=True` does |
| Reports.TotalsItemsMeaning | src/main.py:100-104 | `totals.items()` lists every category that occurs, each once, in order of first appearance, with the sum of its amounts |
| Reports.ShowTotalsMeaning | src/main.py:123-135 | the "nothing to summarise" case happens exactly for an empty file; otherwise every category appears with its total, largest first, with ties in first-appearance order |
| Reports.ListingOfFile | src/main.py:107-120 | for a file that reads, the "no expenses" message is shown exactly when the file has no rows; otherwise one expense per row, in file order, each the row as `read_expenses` converts it |
| Reports.GroceriesBeforeTransport | src/main.py:123-135 | Groceries 15.50 is shown before Transport 3.00 |
| Shell.PromptCategory | src/main.py:154 | `input().strip() or None` gives nothing exactly when every character of the answer is whitespace, and otherwise the stripped answer, which is not blank |
| Shell.AddFromPromptRow | src/main.py:146-156 | the prompts append nothing and raise the date error exactly when the stripped date is refused; otherwise the row has the same date, the stripped description, the amount typed, and the stripped category or, for a blank answer, `auto_categorise` of the stripped description |
| Shell.AddRound | src/main.py:146-157 | choice `1` stops at end of input; otherwise it consumes one set of answers and either appends and reports as saved exactly the row `add_expense_from_prompt` builds, which reads back, or stops with that call's date error and leaves the file alone |
| Shell.ReportRound | src/main.py:174-177 | choices `2` and `3` stop exactly when the file does not read, with that read error; otherwise they leave the file alone and show the listing (`2`) or the totals summary (`3`) of what the file reads as |
| Shell.StepOnce | src/main.py:163-182 | a round consumes one menu line; `1` is the add round, `2` the listing and `3` the totals round on the rest of the input; the loop ends on `4` exactly; every other round shows one event, and the file grows only by the row it reports as saved |
| Shell.AddChoiceSaves | src/main.py:172-173 | `1` with answers that `add_expense` accepts appends their row, records it as saved and goes on |
| Shell.ReportChoiceShows | src/main.py:174-177 | `2` or `3` on a file that reads shows its listing or its totals summary and changes nothing else |
| Shell.QuitChoiceEnds | src/main.py:178-180 | `4` says "Bye" and ends the loop |
| Shell.RunContinues | src/main.py:163 | a round that goes on hands the rest of the loop to the next state |
| Shell.ListThenQuit | src/main.py:174-180 | listing a file that reads and then quitting shows the listing and "Bye" and leaves the file as it was |
| Shell.AddListQuitFromEmpty | src/main.py:146-180 | from an empty file, `1`, `2`, `4` leave the one added row in the file and list what it reads back as |
| Shell.TescoFormSaved | src/main.py:146-156 | the answers "2024-03-01", "Tesco Express", 12.50 and a blank category append `2024-03-01,Tesco Express,12.50,Groceries` |
| Shell.AddListQuit | src/main.py:146-180 | adding that expense, then listing, then quitting leaves that row in the file and shows one Groceries expense of 12.50 and then "Bye" |
| Shell.InvalidChoiceContinues | src/main.py:181-182 | any other line shows the invalid-option message and the loop goes on |
| Shell.ReportsLeaveFileAlone | src/main.py:174-177 | listing and totals never change the file |
| Shell.QuitOnlyAtFirstFour | src/main.py:178-180 | the loop quits only at the first line that reads `4`, leaving the lines after it unread |
| Shell.FileGrowsBySavedRows | src/main.py:163-182 | over a whole run, what was shown before is kept, and the file grows by exactly the rows reported as saved, in order |
| Shell.ReadableFileStaysReadable | src/main.py:163-182 | a file whose amounts all convert stays that way, so the loop never stops on a read error |
| Shell.RunMenu | src/main.py:159-182 | the loop over the store ends, shows and leaves the file exactly as the step-by-step run does |
| Shell.SummariseTotals | src/main.py:123-135 | the dictionary from `total_by_category`, sorted by total, gives exactly the specified summary |

## Left out

- File and console I/O: creating the data directory, opening the file, and the text printed for each menu option. The file is the row sequence in `ExpenseStore`, and what each round shows is an `Event` value.
- CSV quoting and parsing: `csv.writer` and `csv.DictReader` round-trip field values. The model works on the field values directly.
- The header row as file content. `ExpenseStore.rows` holds the rows below it, and the fields of `Records.Row` follow the header's column order.
- Rows with missing or extra fields, which `DictReader` fills with `None`. Such rows are never written by this program.
- The first definition of `ensure_data_file_exists` (`src/main.py:18-22`). It is replaced by the second definition before anything calls it, so it never runs.
- Floating point: amounts are whole hundredths. The rounding in `f"{amount:.2f}"` and binary-float sums in `total_by_category` are not modelled.
- Shell.AddFromPromptRow: amounts are finite. `_get_float` (`src/main.py:140-142`) accepts `inf`, `-inf` and `nan` (and texts such as `1e400` that overflow to `inf`), `add_expense` writes them as `inf`, `-inf` and `nan` (`src/main.py:78`), and `read_expenses` reads them back (`src/main.py:91`), so they then reach the listing and the totals. A `Form` amount is an integer number of hundredths, so none of this is in the model.
- Money.ParseCents: reads only the two-decimal text the writer produces (an optional `-`, digits, a point and two digits). `float()` also accepts texts such as `12.5`, `12`, ` 12.50`, `+1.00`, `1e3` and `1_000.00`, which this program never writes; for these `ParseCents` gives nothing.
- Records.ReadAll: because of the line above, a file edited by hand to hold such an amount makes `ReadAll` report `InvalidAmount`, where Python reads on.
- Shell.ReportRound: for the same reason, choices `2` and `3` on such a file stop the loop with `ReadFailed`, where Python lists the file or shows its totals.
- `_get_float` (`src/main.py:137-144`): the retry loop for a non-numeric amount and the removal of commas. A form carries the number that was finally accepted.
- Dates.ParseDate: `\d` is modelled on ASCII digits only. Python's `strptime` uses `\d` only in the year (`\d\d\d\d`) and in the second digit of a day (`[12]\d`), and there it also accepts other Unicode decimal digits; the month pattern and the other day alternatives use ASCII classes, as the model does.
- Text.ToLower: only `A` to `Z` are lower-cased. Python's `lower()` also lower-cases non-ASCII letters and can change the length: `'İ'` (U+0130) becomes `i` followed by the combining dot U+0307, and the KELVIN SIGN U+212A becomes `k`. No keyword contains `k`, and the combining dot lands right after the `i`, so in Python it breaks every keyword with an `i` in the middle (`"TRAİN"`, `"PRİME"`, `"CİNEMA"`, `"NETFLİX"` and `"SAİNSBURY"` match nothing in Python either, as in the model). The one difference is the keyword `aldi`, whose `i` is last: a description holding `ALDİ` is Groceries in Python, but in the model it gets `Uncategorised`, or the category of a later keyword that also occurs.
- Dates.FormatDate: years below 1000 are written with four digits. `strftime` zero-pads them on most platforms, and this platform dependence is not modelled.
- `KeyboardInterrupt` and other interruptions from outside the program.
