# Bank statement chatbot — a Dafny model

`bot2.py` is a Streamlit page that reads a bank statement PDF and answers
questions about it. This project models the logic behind three parts of that
page and proves what each part does.

1. **Normalisation.** This is `process_pdf_data` after the PDF has been
   opened.
   - Every page's table becomes a frame whose header is its first row.
   - Repeated labels are renamed by the left-to-right scan of lines 47-51.
   - The frames are stacked with `pd.concat`.
   - A column is chosen for each of the roles Date, Debit, Credit and
     Reference, by the words in its label.
   - The chosen columns are kept under those canonical names.
   - Debit and Credit are read as numbers (commas removed, whitespace
     stripped, 0 when unreadable), and Date is read as a day.
2. **Aggregation helpers.** These are the top debits and credits per
   reference, transactions per day, monthly and weekly sums, transactions per
   reference, and the date, reference and amount filters. Each is modelled on
   a table of records whose columns may be absent.
3. **Query dispatch.**
   - The session query comes from the quick option, the Apply Filters button
     or the typed question.
   - The first fixed key the query contains picks the answer.
   - Otherwise a "how much … on …" question sums the debits of the rows whose
     reference holds the term.
   - Anything else is not understood.

Modules follow the program's pieces:

| module | what it holds |
|---|---|
| `Wrappers` | `Option` and `Result` |
| `Text` | Python string operations: `in`, `lower`, `strip`, `split`, `replace` |
| `Amounts` | `pd.to_numeric` on a cleaned cell, with a fixed-point renderer as its partner |
| `Header` | the label scan, as a method and as a function |
| `Frames` | page tables, the page loop, and `pd.concat` |
| `Ledger` | the normalised statement |
| `Normalize` | role choice, projection, rename, conversions, and `process_pdf_data` itself |
| `Grouping` | sorted `groupby`, per-key sums and counts, stable `nlargest` |
| `Orders` | the key orders pandas sorts by |
| `Aggregate` | the helpers of lines 106-157 |
| `Filters` | `filter_by_date`, `search_reference` and `filter_by_amount` |
| `Dispatch` | the session query, and the answer for each query |

What the program leaves to the outside world enters the model as
parameters:
- the PDF's page tables, or the failure to open it;
- a date reader `parseDate` standing in for `pd.to_datetime`;
- a week numbering `weekOf` standing in for `to_period("W")`;
- the sidebar settings, the pressed button, the selected option and the
  typed text.

Every answer of the page is a constructor of `Dispatch.Answer`. One run of
the page is a `Dispatch.Page`: the upload prompt, an answer, or nothing after
the quick-option line raises an IndexError.

Two behaviours of the source stand out in the proofs:
- **The "Apply Filters" button never takes effect**
  (`Dispatch.ButtonOverwritten`). The radio of line 201 always has a
  selection, so line 203 overwrites on the same run the key the button
  stored on line 191.
- **Repeated labels can survive the renaming** (`Header.DedupNotUnique`)
  because the renaming scan reads its own earlier rewrites. A statement
  whose chosen column is repeated in the stacked frame is a crash
  (`Normalize.Clash`).

## Model

| member | source | states |
|---|---|---|
| Header.DedupColumns | bot2.py:47-51 | The in-place scan over `cols` ends with the labels of `Dedup(header)` |
| Header.DedupAt | bot2.py:48-50 | Position i keeps its label unless an equal label stands before it in the partly renamed header; if one does, the label becomes `label_i` |
| Header.DedupFixedPoint | bot2.py:47-51 | The scan leaves a header unchanged exactly when its labels are distinct |
| Header.DedupDistinct | bot2.py:47-51 | A header without repeated labels comes out unchanged |
| Header.DedupKeepsFirst | bot2.py:48-50 | The first label is never renamed |
| Header.DedupDateExample | bot2.py:47-51 | `Date, Date, Amount` becomes `Date, Date_1, Amount` |
| Header.DedupNotUnique | bot2.py:47-51 | `X, X_2, X` becomes `X, X_2, X_2`, which is not distinct |
| Header.DedupRenamesFirstOccurrence | bot2.py:48-50 | `X, X, X_1` becomes `X, X_1, X_1_2`: each test sees the earlier rewrites |
| Frames.FromTable | bot2.py:46 | A table becomes a frame with the first row as header and one padded row per data row; it is refused exactly when the widest data row differs from the header's width |
| Frames.CollectFrames | bot2.py:43-52 | The page loop appends, in page order, the renamed frame of each page with a non-empty table, and stops with a failure at the first refused table |
| Frames.CollectFails | bot2.py:43-58 | Collecting fails exactly when some page's table is refused |
| Frames.CollectRows | bot2.py:43-52 | The collected frames hold every data row of every page with a table, and each frame is rectangular |
| Frames.UnionColumns | bot2.py:61 | The union of the frames' labels holds each label once, and exactly the labels of some frame |
| Frames.ConcatShape | bot2.py:61 | Frames with the same labels are stacked as they are. Otherwise stacking fails exactly when some frame repeats a label, and else it lines up the union of the labels. The result holds the rows of all frames |
| Frames.RealignCell | bot2.py:61 | Under the union of labels, a cell is the frame's cell of the same label, or missing where the frame lacks the column |
| Normalize.FirstMatch | bot2.py:63-66 | The role's column is the first label whose lower-cased text holds one of the role's words; there is none exactly when no label does |
| Normalize.RenameMap | bot2.py:70-74 | `rename_map` holds exactly the kept labels; a label chosen for two roles gets the name of the later role |
| Normalize.NoClashTargets | bot2.py:70-75 | When no canonical name is borne twice, each chosen label gets its own role's name |
| Normalize.NoDataExactly | bot2.py:67-69 | The result is the empty table exactly when no label fits any role |
| Normalize.CoerceColumns | bot2.py:76-78 | The Debit/Credit loop gives the table with each present amount column read as numbers |
| Normalize.CoerceBoth | bot2.py:76-78 | After the loop, the same names are present; Debit and Credit are converted and the other columns are untouched |
| Normalize.ConvertColumns | bot2.py:76-80 | The amount loop is followed by the date conversion when a Date column is present |
| Normalize.RenameAndConvert | bot2.py:70-80 | Projection, rename and both conversions give the converted table |
| Normalize.ProjectedShape | bot2.py:75 | Without a clash, the projection has exactly the columns of the chosen roles, each the cells of its chosen label |
| Normalize.ConvertedShape | bot2.py:75-80 | The converted table has a column per chosen role. Debit and Credit are the coerced cells of the chosen label, Date is the days read from them, and Reference is the text |
| Normalize.StoreRows | bot2.py:75-80 | Row i of the statement has the coerced Debit and Credit of the chosen labels' cells in row i, the day read from the Date cell, and the Reference text. A column the statement lacks holds its default. The columns come in Date, Debit, Credit, Reference order |
| Normalize.NormalizeTable | bot2.py:62-81 | Processing the stacked frame step by step gives `NormalizeFrame` |
| Normalize.ProcessPdfData | bot2.py:40-81 | `process_pdf_data` step by step. A password or opening failure gives its error. No frames give the empty table. A failed `concat` is a crash. Otherwise the normalised frame |
| Normalize.NormalizedRows | bot2.py:62-81 | A normalised statement has one row per row of the stacked frame, and each row's fields are read from the chosen columns as in `StoreRows` |
| Normalize.NormalizeRowCount | bot2.py:43-81 | A normalised statement has as many rows as all pages with a table have data rows |
| Normalize.SharedAmountColumn | bot2.py:64-78 | A label chosen both as Debit and as Credit is projected twice as "Credit", and the coercion fails on it |
| Amounts.ParseFormatFixed | bot2.py:78 | The number parser reads back exactly the value of every rendered signed decimal |
| Amounts.CoerceFormatted | bot2.py:78 | A cell holding a rendered decimal with surrounding whitespace coerces to its value |
| Amounts.CommaIgnored | bot2.py:78 | A comma anywhere in a cell changes nothing about its coerced value, so neither does any number of commas |
| Amounts.CoerceThousands | bot2.py:78 | "1,200.50" coerces to 1200.5 |
| Amounts.NotANumber | bot2.py:78 | A word that is not a number coerces to 0 |
| Amounts.CoerceMissing | bot2.py:78 | A missing cell (text "None" after `astype(str)`) coerces to 0 |
| Amounts.CoerceEmpty | bot2.py:78 | An empty cell coerces to 0 |
| Text.JoinSplit | bot2.py:322 | Joining the pieces of `split` with the separator gives back the string |
| Text.SplitMoreThanOne | bot2.py:322-323 | `split` gives more than one piece exactly when the separator occurs |
| Text.SplitLast | bot2.py:322-324 | The last piece of `split` is a suffix of the string holding no separator |
| Text.RemoveOnly | bot2.py:78 | Removing a character that occurs once leaves the text around it |
| Text.RemoveAllDrops | bot2.py:78 | `replace(",", "")` gives the same text whether or not one more comma stands anywhere in the cell |
| Text.Strip | bot2.py:78 | `strip` leaves text without whitespace at either end, and changes nothing when there is none |
| Grouping.Groups | bot2.py:108 | The group keys are ascending, and exactly the keys of the rows that have one |
| Grouping.CountsPartition | bot2.py:120 | The per-key counts over the group keys add up to the rows that have a key |
| Grouping.SumsPartition | bot2.py:132 | The per-key sums over the group keys add up to the sum over the rows that have a key |
| Grouping.SortDescPerm | bot2.py:108 | Sorting by decreasing score is a permutation |
| Grouping.SortDescStable | bot2.py:108 | The sort is stable: the elements of any one score come out in the order they went in |
| Grouping.SortDescTies | bot2.py:108 | When the input is ordered by a relation, the sorted output lists equal scores in that order |
| Grouping.LargestTop | bot2.py:108 | `nlargest(n)` takes min(n, size) entries in non-increasing order. Together with the entries left out they are a permutation of the input, and no entry left out scores above one taken |
| Orders.StrOrder | bot2.py:108 | References are sorted by a strict total order |
| Orders.DateOrder | bot2.py:120 | Days are sorted by a strict total order |
| Orders.MonthOrder | bot2.py:131 | Months are sorted by a strict total order |
| Aggregate.RefTotals | bot2.py:108 | Each entry of the per-reference sums is a reference of some row, with the column's sum over its rows |
| Aggregate.RefTotalsComplete | bot2.py:108 | Every reference of a row has its entry, and no entry appears twice |
| Aggregate.TopShape | bot2.py:106-116 | The top list is empty unless both columns exist. It has at most n entries, each strictly positive and the exact sum for its reference, in non-increasing order, with distinct references |
| Aggregate.TopComplete | bot2.py:106-116 | A reference with a positive sum that is missing from the top list means the list is full and every listed sum is at least as large |
| Aggregate.TopTies | bot2.py:106-116 | Among equal sums in the top list the references ascend, the order `groupby` lists them in. A reference left out whose sum equals a listed one comes after it |
| Aggregate.TopHead | bot2.py:106-109 | The top list is non-empty exactly when some reference has a positive sum, and its first entry is the largest sum of any reference |
| Aggregate.DayCountsShape | bot2.py:118-121 | One entry per date that has rows, ascending, with its number of rows; the counts add up to the dated rows |
| Aggregate.RefCountsShape | bot2.py:154-157 | Before sorting, each reference appears once with its number of rows, and nothing else appears |
| Aggregate.CountByReferenceShape | bot2.py:154-157 | `value_counts` is in non-increasing order, holds each reference once with its number of rows and nothing else, and adds up to the rows with a reference |
| Aggregate.SummaryShape | bot2.py:128-140 | The summary fails (a KeyError) exactly when a Date column exists and Debit or Credit is missing. Otherwise it holds the ascending periods of the dated rows, each with its Debit and Credit sums, adding up to the sums over the dated rows |
| Aggregate.MonthlyMatchesTotals | bot2.py:128-132 | When every row is dated, the monthly sums add up to the full column sums |
| Aggregate.ColumnMax | bot2.py:302-303 | The largest value of a column, which some row holds; nothing (NaN) when the column or the rows are missing |
| Aggregate.ArgMax | bot2.py:218 | `idxmax` picks the first entry with the largest score |
| Filters.Keep | bot2.py:125 | A mask keeps exactly the rows that pass |
| Filters.KeepCounts | bot2.py:125 | A mask keeps each passing row exactly as many times as the table has it, and no other row |
| Filters.KeepSubsequence | bot2.py:125 | A mask keeps the rows that pass in their order |
| Filters.KeepKeep | bot2.py:307-313 | Two masks in a row keep the rows passing both, in either order |
| Filters.FilterByDate | bot2.py:123-126 | Keeps the order-preserved rows dated from start to end inclusive, each as many times as the table has it; the empty table without a Date column |
| Filters.Needle | bot2.py:144 | A pattern without regular-expression syntax is searched for as itself |
| Filters.SearchReference | bot2.py:142-145 | Keeps the order-preserved rows whose lower-cased reference holds the lower-cased term, each as many times as the table has it, never a missing reference; the empty table without a Reference column |
| Filters.FilterByAmount | bot2.py:147-152 | Keeps the order-preserved rows with an amount at least the minimum, and at most the maximum only when that is positive, each as many times as the table has it; the empty table without the column |
| Filters.ZeroBounds | bot2.py:147-151 | The default bounds keep every row of a statement without negative amounts |
| Dispatch.QuickKey | bot2.py:203 | An option caption without a space is an IndexError; otherwise the key has no space |
| Dispatch.QuickKeyWords | bot2.py:203 | An icon, a space and words give the words lower-cased with underscores for spaces |
| Dispatch.QuickQueryOf | bot2.py:195-203 | Each of the ten quick options gives its key, e.g. "🔴 Highest Debit" gives `highest_debit` |
| Dispatch.Query | bot2.py:201-209 | A typed question replaces the option's key, lower-cased; a caption without a space is an IndexError |
| Dispatch.SessionQuery | bot2.py:190-209 | With no option selected, the query is the typed question, or else the button's key or the previous query; with an option selected, it is the option's query |
| Dispatch.ButtonOverwritten | bot2.py:190-203 | With a quick option selected, pressing Apply Filters gives the same query as not pressing it |
| Dispatch.FirstKey | bot2.py:215-306 | The first fixed key the query contains, with none before it contained; or none when it contains no key |
| Dispatch.FirstKeyDecides | bot2.py:214-337 | A non-empty query is answered by the handler of the first key it contains. With no key, a "how much / spent on / spend on" question goes to the reference search, and anything else is not understood |
| Dispatch.KeysHaveUnderscore | bot2.py:215-306 | Every fixed key holds an underscore |
| Dispatch.TypedQuestion | bot2.py:321-337 | A query without an underscore is a spending question or not understood |
| Dispatch.TypedOverrides | bot2.py:205-213 | On a loaded statement, a typed question with a well-formed option shows the answer to that question, lower-cased |
| Dispatch.TurnFacts | bot2.py:178-339 | A run shows the upload prompt exactly when no non-empty statement is loaded. It shows nothing past the IndexError exactly when the selected caption has no space. An empty query shows nothing. A typed question without `_` is a spending question or not understood |
| Dispatch.HighestFacts | bot2.py:215-236 | "No data" exactly when a column is missing or no reference has a positive sum. Otherwise the top five and the reference with the largest sum, which is the exact sum of its rows. Of references with that sum, it is the first in reference order |
| Dispatch.BusiestFacts | bot2.py:238-246 | "No data" exactly without a Date column or without dated rows. Otherwise a day that has rows, whose count no day exceeds and every earlier day falls short of |
| Dispatch.DaysPresent | bot2.py:239-240 | The day counts are non-empty exactly when some row is dated |
| Dispatch.FrequentFacts | bot2.py:282-299 | For both handlers, "no reference data" exactly without a Reference column or without references. Otherwise the first of the counts is a reference whose count no reference exceeds |
| Dispatch.MostFrequentFirst | bot2.py:291-296 | `idxmax` of the counts is their first entry, the most frequent reference |
| Dispatch.MonthlyFacts | bot2.py:262-270 | A KeyError exactly when Debit or Credit is missing beside Date. "No date data" exactly without Date or without dated rows. Otherwise the monthly buckets of the dated rows |
| Dispatch.WeeklyFacts | bot2.py:272-280 | The same for the weekly buckets under the given week numbering |
| Dispatch.TotalsAgree | bot2.py:248-270 | When every row is dated, the totals spent and deposited equal the sums of the monthly buckets |
| Dispatch.FilterFacts | bot2.py:306-319 | The filter answer lists exactly the rows passing the reference search (when a term is set) and the amount bounds, each as many times as the statement has it, with every column. It finds something exactly when the tested columns exist and some row passes |
| Dispatch.SpendFacts | bot2.py:321-334 | The search hint appears exactly when the query holds no "on" anywhere. Otherwise the term is the last piece of `q.split("on")`, stripped. A found answer is the `search_reference` table for that term. It sums the Debit of exactly the rows whose reference holds the term, each as many times as the statement has it. "Nothing containing" means no reference holds it |
| Dispatch.SpentBounded | bot2.py:322-328 | With no negative debits, the amount the question reports as spent is between 0 and the total spent |
| Dispatch.EndingOnSearchesAll | bot2.py:322-332 | A question ending in "on" searches for the empty term. Every present reference holds it, so the answer sums the debits of all rows with a reference |
| Dispatch.SpendTermAsWritten | bot2.py:322-324 | As written: there is a term exactly when the query holds "on" anywhere |
| Dispatch.AsWrittenCutsTerm | bot2.py:322-324 | As written, a term that itself holds "on" is never found whole |
| Dispatch.SpendTerm | bot2.py:322-324 | Corrected: there is a term exactly when the query holds " on " |
| Dispatch.IntendedAnswer | bot2.py:321-334 | Corrected answer: the hint exactly without " on ", and for "… on item" the search for the item |
| Dispatch.TermAfterOn | bot2.py:322-324 | Corrected: the term of "… on item" is the item |
| Dispatch.SpendOnDonuts | bot2.py:322-324 | "spend on donuts": the code as written does not search for "donuts", the corrected term does |

## Findings

| source | as written | input that shows it | evidently intended | confidence | as-written member | corrected member |
|---|---|---|---|---|---|---|
| bot2.py:322 | `q.split("on")[-1].strip()` splits at every "on", inside words too | "spend on donuts" gives the term "uts" | the text after the last word "on": "donuts" | not executed | Dispatch.AsWrittenCutsTerm | Dispatch.TermAfterOn |

The dispatcher's `SpendAnswer` follows line 322 as written, through
`Dispatch.SpendTermAsWritten`. The corrected term `Dispatch.SpendTerm`
takes the text after the last " on ". It drives `SpendAnswerIntended`,
which no run of the page uses.

## Left out

- Dispatch.SpendTerm: this is the corrected half of the finding. It gives
  the search hint for a query without " on ", where the code searches for
  what follows an "on" inside a word ("how much money" searches "ey"). The
  page's answer does not use it.
- Filters.Needle: `str.contains` reads the term as a regular expression.
  The model covers patterns without its syntax, and literals ending in
  `c?`. Other patterns give the `UnsupportedPattern` answer, where pandas
  would run the expression.
- `str.lower` is modelled on ASCII letters only; Unicode case mapping is
  out of scope.
- `pd.to_datetime` is the parameter `parseDate`, and `to_period("W")` is
  the parameter `weekOf`. Their calendars are not modelled.
- `pd.to_numeric` is modelled for plain signed decimals. Exponents,
  "inf" and "nan" are not modelled.
- Amounts are Dafny `real`. Floating-point rounding of sums is not
  modelled.
- The `f"{x:.2f}"` formatting of the messages is not modelled. Charts,
  tables and the CSV download (lines 159-175, 231-234, 264-287, 316-317,
  329-330) are left out too: they are rendering and export.
- Order among equal counts: `value_counts` is modelled as a stable sort
  of the references in sorted order. No claim is made about pandas' own
  order for ties in `value_counts`. For `nlargest`, the tie order is
  proved (`Grouping.SortDescStable`, `Aggregate.TopTies`).
- Normalize.Clash: a Reference column borne twice stops normalisation as
  a crash. `bot2.py` itself keeps such a frame and fails only when a
  handler reads the column.
- Opening the PDF with pdfplumber (lines 42-44), the password error and
  other exceptions are modelled only as the typed outcomes
  `PasswordRefused` and `OpenFailed`. The page tables are an input.
- The URL download (lines 30-37) is network I/O and is not modelled.
- The upload widgets and the processing button (lines 84-103) are not
  modelled. The stored statement is a parameter of `Dispatch.Turn`.
- The sidebar widgets (lines 181-189) are a `Sidebar` parameter. The
  date range they collect is unused by the dispatcher, and
  `filter_by_date` is modelled on its own.
