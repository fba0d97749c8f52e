# Household finance tracker: a Dafny model of its core

The tracker records income and expense transactions in three currencies:
US dollars, Japanese yen and euros. It shows them in a dashboard, converted
into one display currency. This project models the core of its backend and
its frontend, and proves properties of that model.

- **Exchange rates (backend).** `getExchangeRates` looks up today's cached
  USD-based rates and merges them over a fixed fallback table. If there is
  no cached row, it fetches the rates from the provider, stores the JPY and
  EUR rates with an upsert keyed on (base, target, date), and returns them.
  Any failure gives the fallback `{USD: 1, JPY: 160, EUR: 0.91}`.
  `convertCurrency` converts through the dollar and rounds to cents.
- **Transactions controller (backend).** It lists the caller's rows with
  optional filters, newest date first, then newest creation first. It
  validates and inserts rows, patches and deletes the caller's own rows,
  and maps each outcome to an HTTP status and error message.
- **Frontend.**
  - The exchange-rate hook: its state and its own copy of the converter.
  - The transaction form: initial values, the category filter and reset,
    field validation with its Japanese messages, and the submitted payload.
  - The dashboard totals and the expense-by-category accumulator.
  - The transaction list, grouped by date with the latest date first.
  - The six-month bar chart.
  - The category pie chart: positive slices, largest first, labels from 5%.
  - The currency formatter and the filter panel.

Clocks, the database, the provider and the browser's number and date
parsing are parameters. `today` and `now` are the call's date strings.
`readOk`, `writeOk` and `upsertOk` say whether a database call succeeded.
`provider` is the provider's `conversion_rates` map, or `None` when the
request failed. `amountValue` is `Number(amount)`, and `None` is `NaN`.
`selectedTime` is `new Date(date)`'s time, and `None` is an invalid date.
`cutoff` is the time one hundred years ago. `digits` is the
`toLocaleString` rendering of a number.

Amounts are Dafny `real`s. JavaScript's `Math.round` is written out as
`MathRound` (halves round up), and cents rounding as `RoundCents`. A
stored table of rows is a `class` whose methods change it. Pure
computations are functions, with lemmas relating them. Every JavaScript
`sort` becomes one insertion sort, `Sorting.Sort`, proved to give a
permutation sorted by a total preorder. Strings compare with a
lexicographic order, `StringOrder.StrLe`.

## Model

| member | source | states |
|---|---|---|
| `ExchangeRateService.MathRound` | backend/src/services/exchangeRate.ts:81 | the result is the integer nearest the input, with halves rounding up |
| `ExchangeRateService.RoundCents` | backend/src/services/exchangeRate.ts:81 | the result is a whole number of cents, within half a cent of the input |
| `ExchangeRateService.Convert` | backend/src/services/exchangeRate.ts:65-82 | the same currency gives the amount back unchanged; different currencies give the dollar-pivot value, to within half a cent |
| `ExchangeRateService.ConvertWholeCents` | backend/src/services/exchangeRate.ts:81 | a conversion between different currencies is always a whole number of cents |
| `ExchangeRateService.PivotIsCrossRate` | backend/src/services/exchangeRate.ts:73-79 | with USD at 1, the pivot value is the amount times to-rate over from-rate |
| `ExchangeRateService.ConvertNonNegative` | backend/src/services/exchangeRate.ts:71-81 | with positive rates, a non-negative amount converts to a non-negative amount |
| `ExchangeRateService.ConvertExample` | backend/src/services/exchangeRate.ts:71-81 | 10 USD at 150.456 yen per dollar converts to 1504.56 JPY |
| `ExchangeRateService.PivotComposes` | backend/src/services/exchangeRate.ts:73-79 | before rounding, converting into dollars and then out of them equals the direct pivot conversion |
| `ExchangeRateService.ThroughUsdAtAnEnd` | backend/src/services/exchangeRate.ts:71-81 | when either end is USD, converting via USD gives exactly the direct conversion |
| `ExchangeRateService.Assign` | backend/src/services/exchangeRate.ts:22 | setting one code's rate changes only that currency; an unknown code changes nothing |
| `ExchangeRateService.CachedTable` | backend/src/services/exchangeRate.ts:19-24 | each currency takes today's USD-based row when there is one, and the fallback rate otherwise |
| `ExchangeRateService.Upsert` | backend/src/services/exchangeRate.ts:42-46 | the stored keys afterwards are the old keys plus the batch's keys |
| `ExchangeRateService.UpsertTodayRows` | backend/src/services/exchangeRate.ts:35-46 | a refresh writes exactly today's JPY and EUR rows, with the provider's rates, and leaves every other row unchanged |
| `ExchangeRateService.RefreshThenHit` | backend/src/services/exchangeRate.ts:13-24 | after a refresh on a day with no cached rows, the next lookup hits the cache and returns the fetched table |
| `ExchangeRateService.CacheHitExample` | backend/src/services/exchangeRate.ts:19-24 | a single cached JPY row gives that JPY rate, with USD and EUR falling back to 1 and 0.91 |
| `ExchangeRateService.RefreshOncePerDay` | backend/src/services/exchangeRate.ts:12-52 | on a day with no cached rows, the first request fetches and stores the provider's rates, and the second request returns the same table without consulting the provider |
| `ExchangeRateService.RateStore.GetExchangeRates` | backend/src/services/exchangeRate.ts:8-62 | a hit returns the merged cached table and writes nothing; otherwise a usable provider answer is returned, and upserted when the write succeeds; anything else returns the fallback and writes nothing |
| `ExchangeRatesHook.RatesState.constructor` | frontend/src/hooks/useExchangeRates.ts:11-17 | the initial rates are 1, 160 and 0.91; loading is on and there is no update date |
| `ExchangeRatesHook.FailedRefreshKeepsRates` | frontend/src/hooks/useExchangeRates.ts:23-33 | a refresh that fails after a successful one leaves the first answer's rates and date, with loading off |
| `ExchangeRatesHook.RatesState.FetchRates` | frontend/src/hooks/useExchangeRates.ts:23-33 | a success replaces the rates and the date; a failure keeps both; loading ends either way |
| `ExchangeRatesHook.RatesState.Convert` | frontend/src/hooks/useExchangeRates.ts:35-55 | the hook's converter gives the backend converter's value on the same table |
| `Sorting.Insert` | frontend/src/components/transactions/TransactionList.tsx:62-63 | inserting adds exactly that one element (as a multiset) |
| `Sorting.Sort` | frontend/src/components/transactions/TransactionList.tsx:62-63 | sorting permutes its input |
| `Sorting.InsertSorted` | frontend/src/components/dashboard/CategoryPieChart.tsx:32 | inserting into a sorted sequence keeps it sorted under a total preorder |
| `Sorting.SortSorted` | frontend/src/components/dashboard/CategoryPieChart.tsx:32 | the sort's output is sorted under any total preorder |
| `StringOrder.StrLeRefl` | frontend/src/components/transactions/TransactionList.tsx:63 | every string is at most itself |
| `StringOrder.StrLeTotal` | frontend/src/components/transactions/TransactionList.tsx:63 | any two strings compare one way or the other |
| `StringOrder.StrLeAntisym` | frontend/src/components/transactions/TransactionList.tsx:63 | strings that compare both ways are equal |
| `StringOrder.StrLeTrans` | frontend/src/components/transactions/TransactionList.tsx:63 | the string order is transitive |
| `StringOrder.StrLtIsNotLe` | frontend/src/components/transactions/TransactionList.tsx:63 | strictly before holds exactly when not at-or-after |
| `StringOrder.StrLeConcat` | frontend/src/components/dashboard/MonthlyBarChart.tsx:43-45 | for equal-length prefixes (a date's 'yyyy-MM' part), the order of the concatenations is the prefixes' order, with ties broken by the rests |
| `TransactionsController.CreateError` | backend/src/controllers/transactions.ts:39-53 | each of the four messages is given exactly when its check is the first to fail; there is no error exactly when every check passes |
| `TransactionsController.ZeroAmountIsMissing` | backend/src/controllers/transactions.ts:39-45 | an amount of 0 is reported as a missing field, not as a non-positive amount |
| `TransactionsController.UpdateError` | backend/src/controllers/transactions.ts:84-86 | an update is refused, as not positive, exactly when its amount is not left out and is either `null` or at most 0 |
| `TransactionsController.UpdateLooserThanCreate` | backend/src/controllers/transactions.ts:43-53 | an amount over the limit with a 101-character description passes update validation, while create rejects that amount as too large |
| `TransactionsController.AllHoldSnoc` | backend/src/controllers/transactions.ts:17-21 | adding one filter narrows the query by exactly that condition |
| `TransactionsController.BuildQuery` | backend/src/controllers/transactions.ts:10-21 | a row passes every built condition exactly when it belongs to the caller and matches each non-empty filter |
| `TransactionsController.Where` | backend/src/controllers/transactions.ts:23 | the result holds each row that passes every condition as often as the table does, and no other row |
| `TransactionsController.RunQuery` | backend/src/controllers/transactions.ts:10-23 | the listing holds each row that passes every condition as often as the table does, and no other, sorted newest date first, then newest creation first |
| `TransactionsController.NewerFirstIsPreorder` | backend/src/controllers/transactions.ts:14-15 | date descending, then creation time descending, is a total preorder |
| `TransactionsController.Patch` | backend/src/controllers/transactions.ts:88-98 | an update keeps the row's id, owner and creation time and sets its update time to now; each column the body supplies takes the body's value, and each column it leaves out keeps the row's |
| `TransactionsController.PatchOwned` | backend/src/controllers/transactions.ts:88-102 | only rows with the id that the caller owns are patched; every other row is unchanged |
| `TransactionsController.RemoveOwned` | backend/src/controllers/transactions.ts:121-125 | the remaining rows are exactly the rows that are not the caller's row with that id |
| `TransactionsController.UpdateKeepsIdsAndScope` | backend/src/controllers/transactions.ts:88-102 | an update keeps ids unique and leaves other users' rows unchanged |
| `TransactionsController.RemovePreservesUnique` | backend/src/controllers/transactions.ts:121-125 | a delete keeps ids unique |
| `TransactionsController.TransactionStore.GetTransactions` | backend/src/controllers/transactions.ts:6-31 | a failed read is a 500 "Failed to fetch transactions"; otherwise the listing holds each of the caller's matching rows as often as the table does and no other row, newest first |
| `TransactionsController.TransactionStore.CreateTransaction` | backend/src/controllers/transactions.ts:34-76 | a validation failure is a 400 with its message and no write; a failed insert is a 500; otherwise a 201 with the new row, which is appended |
| `TransactionsController.TransactionStore.UpdateTransaction` | backend/src/controllers/transactions.ts:78-115 | a non-positive amount is a 400; a failed write is a 500; otherwise the caller's row is patched and returned, and a missing row is a 404 with nothing changed |
| `TransactionsController.CreateListDelete` | backend/src/controllers/transactions.ts:6-134 | a created row appears in the caller's unfiltered listing, and is gone from it after its deletion |
| `TransactionsController.TransactionStore.DeleteTransaction` | backend/src/controllers/transactions.ts:117-134 | a failed delete is a 500 with nothing changed; otherwise the caller's row with that id is removed and the answer is 204 |
| `TransactionForm.Validate` | frontend/src/components/transactions/TransactionForm.tsx:58-103 | the form is accepted exactly when there are no errors, which is exactly when every field is valid; each field has an error exactly when its check fails, and the later amount check's message wins |
| `TransactionForm.CheckAmount` | frontend/src/components/transactions/TransactionForm.tsx:61-78 | the amount checks leave no message exactly when the amount is valid; an amount over 999,999,999 always ends with the too-large message, a negative yen amount with the at-least-0-yen message, a zero yen amount with the invalid-amount message, and a dollar or euro amount under 0.01 with the at-least-0.01 message |
| `TransactionForm.CheckDate` | frontend/src/components/transactions/TransactionForm.tsx:84-95 | the date checks leave no message exactly when the date is valid; a date before the hundred-year cutoff ends with the too-old message, any other failure with the date-required message |
| `TransactionForm.Payload` | frontend/src/components/transactions/TransactionForm.tsx:118-121 | the request body carries the form's fields unchanged, with the amount replaced by its parsed number |
| `TransactionForm.FormValidPassesBackend` | frontend/src/components/transactions/TransactionForm.tsx:105-129 | a form the frontend accepts, once submitted, passes every validation check of the create handler |
| `TransactionForm.InitialForm` | frontend/src/components/transactions/TransactionForm.tsx:35-42 | a new form starts as an expense in JPY dated today; an edit form carries the transaction's values (the amount as its rendered text), with an empty type replaced by expense and an empty date by today |
| `TransactionForm.FilteredCategories` | frontend/src/components/transactions/TransactionForm.tsx:47-49 | the list holds exactly the categories of the form's type |
| `TransactionForm.ResetCategory` | frontend/src/components/transactions/TransactionForm.tsx:51-56 | the effect changes only the category: it is kept exactly when it is empty or some category of the form's type has that id, and cleared otherwise |
| `TransactionForm.ResetLeavesMatchingCategory` | frontend/src/components/transactions/TransactionForm.tsx:51-56 | after the reset effect, any selected category is one of the form's type |
| `TransactionForm.ResetIdempotent` | frontend/src/components/transactions/TransactionForm.tsx:51-56 | running the reset effect twice gives the same form as running it once |
| `TransactionForm.ApplyEdit` | frontend/src/components/transactions/TransactionForm.tsx:139-162 | each input handler changes its own field and leaves every other field unchanged |
| `TransactionForm.SwitchKindClearsForeignCategory` | frontend/src/components/transactions/TransactionForm.tsx:139-141 | switching to a type the selected category does not belong to clears the selection |
| `Dashboard.ConvertAll` | frontend/src/pages/Dashboard.tsx:51-54 | each transaction is kept, in order, with its amount converted into the display currency |
| `Dashboard.ConvertAllSameCurrency` | frontend/src/pages/Dashboard.tsx:51-54 | amounts already in the display currency are unchanged |
| `Dashboard.OfKind` | frontend/src/pages/Dashboard.tsx:56-62 | the filter keeps exactly the transactions of the given type |
| `Dashboard.OfKindSnoc` | frontend/src/pages/Dashboard.tsx:56-62 | the filter of a longer list is the shorter list's filter, extended by the new item when it matches |
| `Dashboard.TotalSnoc` | frontend/src/pages/Dashboard.tsx:58 | the reduce adds each converted amount once |
| `Dashboard.SumFrontSnoc` | frontend/src/pages/Dashboard.tsx:56-62 | the per-type running sum grows by an item's amount exactly when the item has that type |
| `Dashboard.TotalOfKind` | frontend/src/pages/Dashboard.tsx:56-62 | the sum of the filtered list is the running sum of the matching amounts |
| `Dashboard.TotalIncome` | frontend/src/pages/Dashboard.tsx:56-58 | the total income equals the front-to-back sum of the income amounts |
| `Dashboard.TotalExpense` | frontend/src/pages/Dashboard.tsx:60-62 | the total expense equals the front-to-back sum of the expense amounts |
| `Dashboard.Balance` | frontend/src/pages/Dashboard.tsx:64 | the balance is the income sum minus the expense sum |
| `Dashboard.BalanceSnoc` | frontend/src/pages/Dashboard.tsx:56-64 | an income raises the balance by its amount, an expense lowers it, and any other type leaves it |
| `Dashboard.CategoryName` | frontend/src/pages/Dashboard.tsx:70 | an expense is filed under its category's name when that name is non-empty, and under "その他" when there is no category or its name is empty |
| `Dashboard.IndexOf` | frontend/src/pages/Dashboard.tsx:71 | finds the first entry with the name |
| `Dashboard.AddTo` | frontend/src/pages/Dashboard.tsx:71 | an existing name keeps the number of entries; a new name is appended at the end |
| `Dashboard.SumValuesUpdate` | frontend/src/pages/Dashboard.tsx:71 | replacing one entry changes the sum of all values by the difference |
| `Dashboard.SumValuesSnoc` | frontend/src/pages/Dashboard.tsx:71 | appending an entry adds its value to the sum |
| `Dashboard.ValueOfUpdate` | frontend/src/pages/Dashboard.tsx:71 | raising one entry raises that name's value only |
| `Dashboard.ValueOfSnoc` | frontend/src/pages/Dashboard.tsx:71 | appending a new name adds a value for that name only |
| `Dashboard.AddToFacts` | frontend/src/pages/Dashboard.tsx:71 | one accumulation step keeps names unique, adds its name, raises only that name's value, and raises the total by the amount |
| `Dashboard.Totals` | frontend/src/pages/Dashboard.tsx:69-73 | the accumulated object never has more names than there are expenses |
| `Dashboard.Named` | frontend/src/pages/Dashboard.tsx:70 | keeps exactly the transactions filed under the name |
| `Dashboard.TotalsCorrect` | frontend/src/pages/Dashboard.tsx:67-73 | the accumulated object has unique names and a name exactly for each category present; each name's value is the sum of its transactions, and the values add up to the whole total |
| `Dashboard.AccumulateByName` | frontend/src/pages/Dashboard.tsx:68-72 | the loop over the expenses builds exactly the accumulated name-to-total list |
| `Dashboard.ExpenseTotals` | frontend/src/pages/Dashboard.tsx:66-73 | the totals of the expenses have unique names, a name exactly for each expense category, each value that category's expense sum, and all values together the total expense |
| `Dashboard.ExpenseByCategory` | frontend/src/pages/Dashboard.tsx:66-73 | the per-category expense totals: one entry per category name that has an expense, each the sum of that category's expenses, and all of them together the total expense |
| `TransactionList.OnDate` | frontend/src/components/transactions/TransactionList.tsx:24-31 | keeps exactly the transactions dated on the given day |
| `TransactionList.IndexOfDate` | frontend/src/components/transactions/TransactionList.tsx:26 | finds a group that has the date |
| `TransactionList.Push` | frontend/src/components/transactions/TransactionList.tsx:25-29 | a date already present keeps the number of groups; a new date opens a group holding only the transaction, at the end |
| `TransactionList.Grouped` | frontend/src/components/transactions/TransactionList.tsx:24-31 | there are never more groups than transactions |
| `TransactionList.OnDateSnoc` | frontend/src/components/transactions/TransactionList.tsx:29 | one more transaction joins only its own date's group, at the end |
| `TransactionList.PushDates` | frontend/src/components/transactions/TransactionList.tsx:26-29 | one step adds its date to the dates present and no other |
| `TransactionList.PushUnique` | frontend/src/components/transactions/TransactionList.tsx:26-28 | one step keeps each date in a single group |
| `TransactionList.PushContents` | frontend/src/components/transactions/TransactionList.tsx:26-29 | after one step, each group still holds exactly its date's transactions, in order |
| `TransactionList.GroupedCorrect` | frontend/src/components/transactions/TransactionList.tsx:24-31 | the grouping has one group per date present, each holding that date's transactions in their original order |
| `TransactionList.GroupByDate` | frontend/src/components/transactions/TransactionList.tsx:24-31 | the loop computes the grouping, with one group per date holding that date's transactions |
| `TransactionList.LaterFirstIsPreorder` | frontend/src/components/transactions/TransactionList.tsx:63 | ordering groups by descending date is a total preorder |
| `TransactionList.Render` | frontend/src/components/transactions/TransactionList.tsx:49-63 | there is an empty-state panel exactly when there are no transactions; otherwise the groups are those of the transactions, in strictly descending date order |
| `TransactionList.PermutedGroups` | frontend/src/components/transactions/TransactionList.tsx:62-63 | reordering the groups keeps them the groups of the same transactions |
| `TransactionList.OnlyOnce` | frontend/src/components/transactions/TransactionList.tsx:62 | with unique dates, each group occurs once |
| `TransactionList.DisplayAmount` | frontend/src/components/transactions/TransactionList.tsx:33-43 | with both a display currency and a converter, the text shows the converted amount after the display currency's symbol; otherwise it shows the stored amount in the row's own currency |
| `TransactionList.DisplayOwnCurrency` | frontend/src/components/transactions/TransactionList.tsx:33-43 | asking for the row's own currency shows what no conversion shows |
| `TransactionList.DisplayCurrency` | frontend/src/components/transactions/TransactionList.tsx:45-47 | the label names the display currency when one is set, and the row's own currency otherwise |
| `TransactionList.SymbolMatchesLabel` | frontend/src/components/transactions/TransactionList.tsx:33-47 | the amount's symbol matches the currency label unless a display currency is given without a converter and differs from the row's |
| `TransactionList.SymbolsDiffer` | frontend/src/utils/formatCurrency.ts:5 | different currencies have different symbols |
| `TransactionList.SignPrefix` | frontend/src/components/transactions/TransactionList.tsx:111 | "+" exactly for income, "-" otherwise |
| `TransactionList.AmountLine` | frontend/src/components/transactions/TransactionList.tsx:111-112 | the row's text starts with the sign given by its type |
| `TransactionList.SignComesFromType` | frontend/src/components/transactions/TransactionList.tsx:111-112 | negating the stored amount does not change what the row shows |
| `MonthlyBarChart.FromIndex` | frontend/src/components/dashboard/MonthlyBarChart.tsx:31 | every month count names a valid month with that count |
| `MonthlyBarChart.IndexRoundTrip` | frontend/src/components/dashboard/MonthlyBarChart.tsx:31 | a month is recovered from its month count |
| `MonthlyBarChart.Window` | frontend/src/components/dashboard/MonthlyBarChart.tsx:30-31 | six consecutive valid months, ending with the current month, none in a later year |
| `MonthlyBarChart.YearBound` | frontend/src/components/dashboard/MonthlyBarChart.tsx:31 | an earlier month is never in a later year |
| `MonthlyBarChart.Pad` | frontend/src/components/dashboard/MonthlyBarChart.tsx:34 | the zero-padded field has exactly the requested width |
| `MonthlyBarChart.PadRoundTrip` | frontend/src/components/dashboard/MonthlyBarChart.tsx:34 | reading a padded field back gives the number |
| `MonthlyBarChart.DaysInMonth` | frontend/src/components/dashboard/MonthlyBarChart.tsx:36 | day 0 of the next month is between the 28th and the 31st |
| `MonthlyBarChart.MonthKey` | frontend/src/components/dashboard/MonthlyBarChart.tsx:34 | the 'yyyy-MM' part of a date has seven characters: four digits that read back as the year, a '-', and two digits that read back as the month |
| `MonthlyBarChart.MonthKeyInjective` | frontend/src/components/dashboard/MonthlyBarChart.tsx:34 | different months have different 'yyyy-MM' keys |
| `MonthlyBarChart.StartDate` | frontend/src/components/dashboard/MonthlyBarChart.tsx:34 | the first day of the month is a ten-character date: the month's 'yyyy-MM' key followed by '-' and a day that reads back as 1 |
| `MonthlyBarChart.EndDate` | frontend/src/components/dashboard/MonthlyBarChart.tsx:35-38 | the last day of the month is a ten-character date: the month's 'yyyy-MM' key, a '-', and a day equal to the month's length |
| `MonthlyBarChart.FebruaryEnd` | frontend/src/components/dashboard/MonthlyBarChart.tsx:35-38 | February ends on the 29th exactly in leap years |
| `MonthlyBarChart.InMonthHasKey` | frontend/src/components/dashboard/MonthlyBarChart.tsx:43-45 | a date within a month's range starts with that month's key |
| `MonthlyBarChart.MonthsDisjoint` | frontend/src/components/dashboard/MonthlyBarChart.tsx:43-45 | a date falls in at most one month's range |
| `MonthlyBarChart.OfRange` | frontend/src/components/dashboard/MonthlyBarChart.tsx:43-45 | keeps exactly the transactions dated inside the range, bounds included |
| `MonthlyBarChart.ChartData` | frontend/src/components/dashboard/MonthlyBarChart.tsx:42-60 | six bars labelled with the window's months; each bar's income and expense are the month's sums, rounded to the nearest integer |
| `MonthlyBarChart.OfRangeSnoc` | frontend/src/components/dashboard/MonthlyBarChart.tsx:43-45 | one more transaction joins a range's list exactly when its date is in range |
| `MonthlyBarChart.RangeSumSnoc` | frontend/src/components/dashboard/MonthlyBarChart.tsx:47-53 | one more transaction raises a range's sum for its type by its amount exactly when it is in range |
| `MonthlyBarChart.MonthSumSnoc` | frontend/src/components/dashboard/MonthlyBarChart.tsx:43-53 | one more transaction raises a month's sum for its type exactly when its date is in that month |
| `MonthlyBarChart.OtherKindIgnored` | frontend/src/components/dashboard/MonthlyBarChart.tsx:47-53 | a transaction that is neither income nor expense does not change the chart |
| `MonthlyBarChart.WindowDistinct` | frontend/src/components/dashboard/MonthlyBarChart.tsx:30-31 | the six months of the window are distinct |
| `MonthlyBarChart.CountedInOneMonth` | frontend/src/components/dashboard/MonthlyBarChart.tsx:42-53 | a new transaction changes at most one of any two bars |
| `CategoryPieChart.ColorFor` | frontend/src/components/dashboard/CategoryPieChart.tsx:30 | the first category with the name gives its colour, and an empty colour or no such category gives "#e8a76f" |
| `CategoryPieChart.Positive` | frontend/src/components/dashboard/CategoryPieChart.tsx:25-31 | the slices are exactly the slices of the entries with a positive value, each with its name's colour |
| `CategoryPieChart.LargerFirstIsPreorder` | frontend/src/components/dashboard/CategoryPieChart.tsx:32 | ordering by descending value is a total preorder |
| `CategoryPieChart.ChartData` | frontend/src/components/dashboard/CategoryPieChart.tsx:25-32 | the slices are a permutation of the positive entries' slices, with the largest first |
| `CategoryPieChart.PositiveOnce` | frontend/src/components/dashboard/CategoryPieChart.tsx:25-31 | when each name has one entry, as the per-category totals do, each positive entry gives exactly one slice and nothing else gives one |
| `CategoryPieChart.ChartDataOnce` | frontend/src/components/dashboard/CategoryPieChart.tsx:25-32 | when each name has one entry, the chart holds exactly one slice per positive entry |
| `CategoryPieChart.SlicesIffPositive` | frontend/src/components/dashboard/CategoryPieChart.tsx:25-32 | there is some slice exactly when some entry is positive |
| `CategoryPieChart.Render` | frontend/src/components/dashboard/CategoryPieChart.tsx:93-104 | the no-data panel appears exactly when no entry is positive; otherwise the pie has the chart's slices |
| `CategoryPieChart.CountAtLeast` | frontend/src/components/dashboard/CategoryPieChart.tsx:77 | no more slices reach a threshold than there are slices |
| `CategoryPieChart.CountBound` | frontend/src/components/dashboard/CategoryPieChart.tsx:77 | the slices at or above a threshold, counted that many times, are at most the total |
| `CategoryPieChart.CountZeroIff` | frontend/src/components/dashboard/CategoryPieChart.tsx:77 | no slice reaches the threshold exactly when the count is zero |
| `CategoryPieChart.LabelledAgrees` | frontend/src/components/dashboard/CategoryPieChart.tsx:77 | a slice gets a label exactly when it is at least 5% of the total |
| `CategoryPieChart.ShareThreshold` | frontend/src/components/dashboard/CategoryPieChart.tsx:77 | a share of at least 5% means a value of at least 5% of the total |
| `CategoryPieChart.AtMostTwentyLabels` | frontend/src/components/dashboard/CategoryPieChart.tsx:77 | at most twenty slices are labelled |
| `CategoryPieChart.ChartSlicesPositive` | frontend/src/components/dashboard/CategoryPieChart.tsx:26 | every slice has a positive value |
| `FormatCurrency.CurrencySymbol` | frontend/src/utils/formatCurrency.ts:14-25 | "¥", "$" and "€" for the three codes, and the empty string exactly for any other code |
| `FormatCurrency.FormatSymbol` | frontend/src/utils/formatCurrency.ts:5 | "¥" exactly for JPY, "$" exactly for USD, and "€" for every other code, unknown codes included |
| `FormatCurrency.FractionDigits` | frontend/src/utils/formatCurrency.ts:6 | no fraction digits exactly for JPY, and two for every other code |
| `FormatCurrency.Abs` | frontend/src/utils/formatCurrency.ts:8 | the magnitude is non-negative and is the value or its negation |
| `FormatCurrency.Format` | frontend/src/utils/formatCurrency.ts:1-12 | the text is the currency's symbol followed by the rendered magnitude |
| `FormatCurrency.SignDropped` | frontend/src/utils/formatCurrency.ts:8 | an amount and its negation format the same way |
| `FormatCurrency.SymbolsAgree` | frontend/src/utils/formatCurrency.ts:5 | for the three supported currencies, both symbol functions agree |
| `FormatCurrency.SymbolsDisagreeOnUnknown` | frontend/src/utils/formatCurrency.ts:5 | for an unknown code, the formatter shows "€" while the symbol lookup gives "" |
| `TransactionFilters.Reset` | frontend/src/components/transactions/TransactionFilters.tsx:24-32 | the reset clears every filter field |
| `TransactionFilters.HasActiveIffSomeField` | frontend/src/components/transactions/TransactionFilters.tsx:34-39 | filters are active exactly when some field is non-empty |
| `TransactionFilters.ResetClearsActive` | frontend/src/components/transactions/TransactionFilters.tsx:24-39 | after a reset no filter is active |
| `TransactionFilters.Update` | frontend/src/components/transactions/TransactionFilters.tsx:80-148 | each input handler sets its own field and keeps the others |
| `TransactionFilters.UpdateActivity` | frontend/src/components/transactions/TransactionFilters.tsx:34-39 | setting a field to a non-empty value activates the filters; clearing the only non-empty field deactivates them |
| `TransactionFilters.Toggle` | frontend/src/components/transactions/TransactionFilters.tsx:46 | the header button flips the panel's open state |
| `TransactionFilters.InactiveSelectsAllOwnRows` | frontend/src/components/transactions/TransactionFilters.tsx:34-39 | with no active filter, the listing selects every row of the caller and no other |

## Left out

- The HTTP layer, authentication middleware, the Supabase client, React rendering, toasts, routing and the categories controller are not part of this model. They are I/O or presentation.
- The clock, the provider request and the database calls are parameters. Their failures are the boolean and `Option` inputs described above.
- The `console.error` logging on every failure path is left out. It is output only and does not change any answer.
- Concurrency is not modelled, for example the hook's mount-time fetch racing a manual refresh. Each call runs to completion in the model.
- `ExchangeRateService.RateStore.GetExchangeRates`: a provider answer without a JPY or EUR rate is treated as a failure and gives the fallback. In the source no exception is thrown for it, and `undefined` rates would be stored and returned.
- `ExchangeRateService.CachedTable`: the model keeps only the three currencies' fields. A cached row for any other target code adds a key in the source that nothing reads.
- `ExchangeRateService.Convert`: requires a non-zero rate for a non-USD source currency; the source computes Infinity or NaN there. Floating-point rounding is not modelled, as amounts are exact reals.
- `ExchangeRateService.PivotComposes`: relates only the unrounded values. Two rounded conversions in a row are bounded only per step, by each step's half-cent bound.
- `TransactionsController.TransactionStore.UpdateTransaction`: no matching row gives 404, following the handler's own branch (lines 106-108). With Supabase's `.single()`, a zero-row update would instead arrive as an error and become a 500.
- `TransactionsController.TransactionStore.GetTransactions`: the rows omit the joined `categories(*)` object.
- `TransactionsController.UpdateError`: the amount is absent, `null` or a number. A JSON string or boolean amount is not modelled. In the source `"abc" <= 0` is false, so such a value skips the 400 and reaches the database, while `"0"` coerces to 0 and gets the 400.
- `TransactionsController.Patch`: each column other than the amount is either left out of the body or given a value. An explicit `null` for `type`, `currency`, `category_id`, `description` or `date` is not modelled. In the source, `.update({...})` writes NULL to that column.
- `TransactionsController.CreateError`: the amount is a number or absent. A JSON string amount and its type coercion are not modelled.
- String lengths count characters, not UTF-16 code units.
- `localeCompare` is modelled as plain code-point lexicographic order. This gives the same order on the ISO dates it compares.
- JavaScript objects keep the insertion order of their string keys, but put integer-like keys first, in numeric order; the model keeps insertion order only. For the date groups this makes no difference, since an ISO date is not integer-like.
- `Dashboard.ExpenseByCategory`: category names are free text, and two kinds of name are not modelled. An integer-like name such as "2024" moves to the front of the object in JavaScript, while the model's association list keeps first-occurrence order. A name that is also an `Object.prototype` member, such as `constructor` or `toString`, makes `acc[categoryName] || 0` read that member; for `constructor` the "total" becomes a string concatenation. A category named `__proto__` is lost: the assignment sets the object's prototype instead of adding a key, so that category has no slice. The model gives the numeric sum for every name.
- `MonthlyBarChart.Window`: years run from 1 to 9999, and the 'yyyy' format is four digits. The Japanese `M月` labels are a plain function of the month.
- `CategoryPieChart.Percent`: Recharts' `percent` is taken to be the slice's value over the sum of the slices. The tooltip's percentage text and the label's trigonometric placement are left out.
- `FormatCurrency.Format`: `toLocaleString`'s digits and separators are a parameter. The same holds for the amount's `toString` in the form's initial state.
- `TransactionForm.Validate`: `Number(amount)` and `new Date(date)` are inputs. As in the source, an unparseable amount (`NaN`) passes every amount check.
- The form's `handleSubmit` network calls and the list's edit and delete buttons are left out. They are I/O.
