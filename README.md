# Expense tracker core, modelled in Dafny

The expense tracker is a small client-side web application. Users record income and expense transactions, set monthly budgets per category and keep recurring income and expenses. Its logic has two parts:

- a record store, `DataStore` in `lib/data-store.ts`, which changes four arrays in place;
- list aggregations inside four page components: budgets, dashboard, transactions and recurring.

This project models both parts and proves what they promise.

| file | module | what it models |
|---|---|---|
| `wrappers.dfy` | `Wrappers` | `Option`, for JavaScript's `null` / `undefined` / NaN results |
| `seqs.dfy` | `Seqs` | the array operations the code relies on: `filter`, a `reduce` that sums, `findIndex`, `reverse` |
| `strings.dfy` | `Strings` | `startsWith`, `includes` and ASCII `toLowerCase` |
| `dates.dfy` | `Dates` | JavaScript `Date` on whole days (see below) |
| `types.dfy` | `Types` | the records of `lib/types.ts` |
| `data_store.dfy` | `DataStore` | the class `Store`, with its four `seq` fields |
| `budgets.dfy` | `Budgets` | `budgetData` and the overview figures of the budgets page |
| `dashboard.dfy` | `Dashboard` | the dashboard's figures and charts (see below) |
| `transactions_view.dfy` | `TransactionsView` | the filtered, searched and sorted transaction list, and the add-or-edit submit |
| `recurring.dfy` | `Recurring` | `calculateNextDate`, the recurring submit and the two "monthly" cards |

The `Dates` module works on whole days only. A day is numbered the way section 21.4 of ECMA-262 (Date Objects) numbers it. `setDate`, `setMonth` and `setFullYear` follow MakeDay: a day past the end of a month, or a month outside 0..11, rolls over into the next month or year. Nothing is clamped. `YYYY-MM-DD` text is produced as `toISOString` writes it and read back as `new Date` reads it.

The dashboard model covers:

- the month filter and its totals;
- the expense breakdown by category. It is a method with a loop that updates its accumulator, proved against a direct definition;
- the six-month series and the bar data;
- the recent list.

Each page's "today" and each new record's id are parameters. The source reads the clock for both.

A monthly schedule does not clamp the day. `setMonth(getMonth() + 1)` rolls over, so 31 January 2024 becomes 2 March 2024 (`Recurring.MonthlyRollsOver`, `Recurring.NextDateExamples`).

## Model

| member | source | states |
|---|---|---|
| `DataStore.DefaultCategories` | lib/data-store.ts:6-16 | nine seed categories, all owned by user "1"; the first six are expense categories and the last three income categories |
| `DataStore.Store.constructor` | lib/data-store.ts:5-18 | a new store holds the seed categories and no transactions, budgets or recurring items |
| `DataStore.Store.GetTransactions` | lib/data-store.ts:49-51 | the result holds exactly the stored transactions of that user, each as many times as it is stored |
| `DataStore.Store.GetCategories` | lib/data-store.ts:81-83 | the same for categories |
| `DataStore.Store.GetBudgets` | lib/data-store.ts:93-95 | the same for budgets |
| `DataStore.Store.GetRecurringTransactions` | lib/data-store.ts:115-117 | the same for recurring transactions |
| `DataStore.Store.AddTransaction` | lib/data-store.ts:53-58 | appends the draft under the new id and returns it; the other three collections are unchanged; the owner's filtered list gains the record at its end; every other user's list is unchanged |
| `DataStore.Store.AddCategory` | lib/data-store.ts:85-90 | the same for categories |
| `DataStore.Store.AddBudget` | lib/data-store.ts:97-102 | the same for budgets |
| `DataStore.Store.AddRecurringTransaction` | lib/data-store.ts:119-124 | the same for recurring transactions |
| `DataStore.Store.UpdateTransaction` | lib/data-store.ts:60-68 | with no transaction of that id: returns `None` and changes nothing; otherwise only the slot of the first match is replaced, by the merge of the old record and the update; the new record is returned; an update without an id leaves the record where a lookup by the same id finds it; the length and the other collections are unchanged |
| `DataStore.Store.DeleteTransaction` | lib/data-store.ts:70-78 | removes exactly the first transaction with that id, keeping the rest in order (one copy fewer in the multiset); returns whether such a transaction existed; otherwise nothing changes |
| `DataStore.Store.UpdateBudget` | lib/data-store.ts:104-112 | the same found / not-found contract as `UpdateTransaction`, on budgets, including the lookup that still finds the record |
| `DataStore.MergeTransactionLaws` | lib/data-store.ts:63 | the spread merge `{ ...t, ...u }`: an empty update is the identity; applying an update twice equals applying it once |
| `DataStore.MergeTransaction` | lib/data-store.ts:63 | `{ ...t, ...u }`: an update that carries no id keeps the record's id, and one that carries no owner keeps its owner |
| `DataStore.MergeBudget` | lib/data-store.ts:107 | `{ ...b, ...u }`: the same for budgets |
| `Seqs.Filter` | lib/data-store.ts:50 | `filter` keeps exactly the elements that pass, and never lengthens the list |
| `Seqs.FilterMultiset` | lib/data-store.ts:50 | `filter` keeps every copy of what passes and no copy of what does not |
| `Seqs.FilterAppend` | lib/data-store.ts:50 | `filter` distributes over concatenation, so it keeps the stored order |
| `Seqs.FindIndex` | lib/data-store.ts:61 | `findIndex` returns -1 exactly when nothing matches; otherwise the index of a match with no match before it |
| `Seqs.FindIndexAppendOne` | lib/data-store.ts:61 | `findIndex` on a list extended by one element: an earlier match wins |
| `Seqs.FindIndexAfterReplace` | lib/data-store.ts:61-63 | writing another match into the slot `findIndex` found leaves a new search at that slot |
| `Seqs.SumOf` | app/dashboard/page.tsx:30-34 | the `reduce((sum, t) => sum + t.amount, 0)` total; `SumNonNegative` and `SumAppend` state its meaning |
| `Seqs.SumNonNegative` | app/recurring/page.tsx:186-189 | a total of amounts none of which is negative is not negative |
| `Seqs.SumAppend` | app/dashboard/page.tsx:30-34 | the total of two lists one after the other is the sum of their totals |
| `Budgets.Utilisation` | app/budgets/page.tsx:43-57 | a row carries its budget and the spending charged to it; `spent + remaining == amount`; the percentage is at most 100; the row is over budget exactly when `spent > amount` |
| `Budgets.Spent` | app/budgets/page.tsx:44-46 | the total of the expenses of the budget's category dated in its month (`ChargedTo`); never negative when no amount is |
| `Budgets.BudgetData` | app/budgets/page.tsx:42-59 | one row per budget, in the budgets' order; row i is `Utilisation` of budget i, so every row carries its budget, its spending, the capped percentage, the uncapped remaining and the over-budget flag that `Utilisation` and `PercentageIsCappedShare` state |
| `Budgets.PercentageIsCappedShare` | app/budgets/page.tsx:48-54 | the percentage is 0 for a budget of amount ≤ 0, 100 once spending reaches a positive budget, and the exact share below that; with no negative amounts it lies in 0..100 |
| `Budgets.OverBudgetShowsFull` | app/budgets/page.tsx:48-56 | an over-budget row of a positive budget shows 100% |
| `Budgets.NothingCharged` | app/budgets/page.tsx:44-49 | with no expense of the category in the month: nothing spent, all of the amount remaining, 0% |
| `Budgets.SpentAfterAdding` | app/budgets/page.tsx:44-46 | one more transaction raises the spending by its amount exactly when it is an expense of that category dated in that month |
| `Budgets.OnlyMatchingExpensesCount` | app/budgets/page.tsx:45 | income, another category or another month never changes the spending |
| `Budgets.OverBudgetCount` | app/budgets/page.tsx:158 | the "Over Budget" count is at most the number of rows |
| `Budgets.TotalBudgeted` | app/budgets/page.tsx:147 | "Total Budgeted" is never negative when no budget amount is; `OverviewFigures` equates it with the budgets' total |
| `Budgets.OverviewFigures` | app/budgets/page.tsx:147-158 | "Total Budgeted" is the sum of the budgets' amounts; "Over Budget" is the number of budgets whose spending exceeds their amount |
| `Budgets.OverspentFoodExample` | app/budgets/page.tsx:42-59 | 150 and 80 of food in a month against 200 give spent 230, 100%, remaining -30, over budget |
| `Dashboard.MonthTransactions` | app/dashboard/page.tsx:28 | exactly the transactions whose date starts with the month key, with their multiplicities |
| `Dashboard.PrefixTestIsCalendarMonth` | app/dashboard/page.tsx:27-28 | for a well-formed date, the prefix test holds exactly when the date is in today's year and month |
| `Dashboard.Summarise` | app/dashboard/page.tsx:30-36 | income and expenses are the sums over the transactions of that kind; net is their difference; together they cover every transaction |
| `Dashboard.ColorFor` | app/dashboard/page.tsx:43-51 | every slice gets a non-empty colour: the fallback "#8b5cf6" covers a missing category and an empty colour |
| `Dashboard.ColorOfFirstNamedCategory` | app/dashboard/page.tsx:43-51 | a slice's colour is that of the first category of that name, or "#8b5cf6" when there is none or its colour is empty |
| `Dashboard.CategoriesAreDistinct` | app/dashboard/page.tsx:44-52 | no category gets two slices |
| `Dashboard.CategoriesListsEachOnce` | app/dashboard/page.tsx:39-57 | a category is listed exactly when some expense has it |
| `Dashboard.CategoriesInFirstAppearanceOrder` | app/dashboard/page.tsx:48 | categories are listed in the order of their first expense |
| `Dashboard.Breakdown` | app/dashboard/page.tsx:39-57 | the direct definition: one slice per listed category, carrying that category's total and colour |
| `Dashboard.SpendAfterAdding` | app/dashboard/page.tsx:46 | one more expense adds its amount to its own category's total only |
| `Dashboard.SliceAfterAdding` | app/dashboard/page.tsx:44-52 | one more expense grows its own category's slice by its amount and leaves every other slice unchanged |
| `Dashboard.SpendOfAbsentCategory` | app/dashboard/page.tsx:48-52 | a category with no expense yet has a total of 0, so its new slice starts at the expense's amount |
| `Dashboard.BreakdownStep` | app/dashboard/page.tsx:42-55 | one step of the reduce on the breakdown so far gives the breakdown of the longer list |
| `Dashboard.AddExpense` | app/dashboard/page.tsx:42-55 | after one step the expense's category has a slice, and at most one slice was added |
| `Dashboard.StepIntoExistingSlice` | app/dashboard/page.tsx:44-46 | the step when the category already has a slice |
| `Dashboard.GrownBreakdown` | app/dashboard/page.tsx:46 | an expense of a listed category grows that category's slice and no other |
| `Dashboard.CategoriesOfAppend` | app/dashboard/page.tsx:44-48 | a new category joins the end of the list; a known one leaves the list unchanged |
| `Dashboard.GrowSlice` | app/dashboard/page.tsx:44-46 | when `find` finds the slice, the step adds the amount to it |
| `Dashboard.PushSlice` | app/dashboard/page.tsx:47-52 | when `find` finds nothing, the step pushes a slice with the amount and the looked-up colour |
| `Dashboard.StepIntoNewSlice` | app/dashboard/page.tsx:47-52 | the step when the category has no slice yet |
| `Dashboard.ExtendedBreakdown` | app/dashboard/page.tsx:48-52 | an expense of an unlisted category adds its slice at the end |
| `Dashboard.AccumulateExpense` | app/dashboard/page.tsx:42-55 | the reduce callback computes one step of the breakdown; the source's in-place `existing.amount +=` and `acc.push` are modelled as updates of the accumulator value |
| `Dashboard.ExpensesByCategory` | app/dashboard/page.tsx:39-57 | the mutating reduce over the expenses returns exactly the breakdown |
| `Dashboard.AddExpenseTotal` | app/dashboard/page.tsx:46-52 | each step adds the expense's amount to the slices' total |
| `Dashboard.BreakdownConservesTotal` | app/dashboard/page.tsx:39-57 | the slices add up to the expenses they were built from |
| `Dashboard.PieMatchesTotalExpenses` | app/dashboard/page.tsx:32-57 | the slices of this month's expenses add up to "Total Expenses"; every expense has a slice; no category has two |
| `Dashboard.EveryExpenseHasSlice` | app/dashboard/page.tsx:47-52 | every expense's category has a slice, even one that matches no category |
| `Dashboard.Last6Months` | app/dashboard/page.tsx:60-64 | the series as written: six keys, the last of which is today's month |
| `Dashboard.Last6MonthsSpelledOut` | app/dashboard/page.tsx:60-64 | the series as written is today moved back 5, 4, 3, 2, 1 and 0 months with `setMonth`, oldest first |
| `Dashboard.MonthKeyBack` | app/dashboard/page.tsx:61-63 | one element of the series; `EarlyStepsBack`, `FirstStepsBack` and `KeysBackFromEndOfMarch` state where it lands |
| `Dashboard.RepeatsMonthAtEndOfMarch` | app/dashboard/page.tsx:60-64 | on 31 March 2025 the series is 2024-10, 2024-12, 2024-12, 2025-01, 2025-03, 2025-03 |
| `Dashboard.DatesBackFromEndOfMarch` | app/dashboard/page.tsx:62 | the dates `setMonth` reaches from 31 March 2025 |
| `Dashboard.KeysBackFromEndOfMarch` | app/dashboard/page.tsx:63 | the month keys of those dates |
| `Dashboard.EarlyInMonthAsIntended` | app/dashboard/page.tsx:60-64 | up to the 28th, the series as written equals the corrected one |
| `Dashboard.EarlyStepsBack` | app/dashboard/page.tsx:62 | up to the 28th, stepping back from today or from the first of the month reaches the same month |
| `Dashboard.FirstOfMonth` | app/dashboard/page.tsx:61-62 | the corrected anchor is `setDate(1)` on today |
| `Dashboard.Last6MonthsFromFirst` | app/dashboard/page.tsx:60-64 | the corrected series: six keys, the last of which is today's month |
| `Dashboard.MonthsBack` | app/dashboard/page.tsx:62 | the calendar month a given number of months back is a valid date |
| `Dashboard.FirstStepsBack` | app/dashboard/page.tsx:62-63 | from the first of the month, `setMonth` lands on the first of the intended month |
| `Dashboard.FromFirstIsConsecutive` | app/dashboard/page.tsx:60-64 | the corrected series is the five previous months and today's, oldest first |
| `Dashboard.FromFirstHasNoRepeats` | app/dashboard/page.tsx:60-64 | for years 1..9999 the corrected series names six different months |
| `Dashboard.MonthlyData` | app/dashboard/page.tsx:66-76 | one bar per month of the series, in order, with that month's income and expense totals |
| `Dashboard.EmptyMonthIsZero` | app/dashboard/page.tsx:66-76 | a month with no transactions still has a bar, at zero |
| `Dashboard.LastBarIsCurrentMonth` | app/dashboard/page.tsx:27-76 | over the series as written and over the corrected one, the last bar is today's month with the same figures as the summary cards |
| `Dashboard.Recent` | app/dashboard/page.tsx:214 | the recent list is the first min(5, n) transactions of the month, in order |
| `TransactionsView.Insert` | app/transactions/page.tsx:48 | a sort step keeps the list's multiset and adds the element |
| `TransactionsView.SortNewestFirst` | app/transactions/page.tsx:48 | the sort is a permutation |
| `TransactionsView.InsertKeepsOrder` | app/transactions/page.tsx:48 | inserting into a newest-first list keeps it newest first |
| `TransactionsView.InsertAfterHead` | app/transactions/page.tsx:48 | the case where the head is strictly newer |
| `TransactionsView.InsertBelow` | app/transactions/page.tsx:48 | an insertion keeps every date at or below a bound |
| `TransactionsView.SortIsNewestFirst` | app/transactions/page.tsx:48 | when every date is readable, the sort orders newest first |
| `TransactionsView.Visible` | app/transactions/page.tsx:40-49 | the filtered list is never longer than the stored one; `VisibleIsFilteredSubset` and `VisibleIsNewestFirst` give its contents and order |
| `TransactionsView.VisibleIsFilteredSubset` | app/transactions/page.tsx:41-48 | the list holds exactly the stored transactions that pass the type filter and the search, each as many times as it is stored |
| `TransactionsView.CountIsNumberShown` | app/transactions/page.tsx:199 | the count shown is the number of stored transactions that pass both tests |
| `TransactionsView.VisibleIsNewestFirst` | app/transactions/page.tsx:48 | when every date parses, the list is ordered by date, newest first |
| `TransactionsView.EmptyTermMatchesAll` | app/transactions/page.tsx:43-47 | the empty search matches every transaction |
| `TransactionsView.SearchIgnoresCase` | app/transactions/page.tsx:43-47 | the search does not depend on the case of the term |
| `TransactionsView.UnfilteredShowsEverything` | app/transactions/page.tsx:40-49 | "all" with an empty search lists every stored transaction |
| `TransactionsView.EditTakesFormFields` | app/transactions/page.tsx:55-65 | an edit keeps the transaction's id and takes every other field from the form |
| `TransactionsView.SubmitTransaction` | app/transactions/page.tsx:50-68 | with an edit target, the first stored transaction with its id is overwritten by the form, and nothing changes when there is none; an edited transaction stays where a lookup by its id finds it; otherwise the form is appended under the new id; the other collections are unchanged |
| `Strings.Lower` | app/transactions/page.tsx:45-46 | `toLowerCase` keeps the length and folds each character |
| `Strings.LowerIdempotent` | app/transactions/page.tsx:45-46 | a lower-cased string has no capitals left and lower-casing it again changes nothing |
| `Strings.StartsWith` | app/dashboard/page.tsx:28 | `startsWith`; `MonthKeyIsPrefix` and `PrefixTestIsCalendarMonth` state what the month test means |
| `Strings.Contains` | app/transactions/page.tsx:45-46 | `includes` holds only when the needle is no longer than the text; `ContainsAt` and `ContainsFrom` tie it to an occurrence at a position |
| `Strings.ContainsAt` | app/transactions/page.tsx:45-46 | `includes` finds an occurrence at some position |
| `Strings.ContainsFrom` | app/transactions/page.tsx:45-46 | an occurrence at any position makes `includes` true |
| `Dates.SetDate` | app/recurring/page.tsx:62 | `setDate` gives a valid date |
| `Dates.SetMonth` | app/recurring/page.tsx:65 | `setMonth` gives a valid date |
| `Dates.SetFullYear` | app/recurring/page.tsx:68 | `setFullYear` gives a valid date |
| `Dates.SetDateFollowsMakeDay` | app/recurring/page.tsx:62 | `setDate` lands on the day MakeDay names |
| `Dates.SetMonthFollowsMakeDay` | app/recurring/page.tsx:65 | `setMonth` lands on the day MakeDay names |
| `Dates.SetFullYearFollowsMakeDay` | app/recurring/page.tsx:68 | `setFullYear` lands on the day MakeDay names |
| `Dates.NormalizeDayNumber` | app/recurring/page.tsx:62-68 | roll-over lands the right number of days after the first of the month, across months and years |
| `Dates.SetMonthToSameMonth` | app/dashboard/page.tsx:62 | `setMonth` to the date's own month changes nothing |
| `Dates.SetMonthKeepsEarlyDay` | app/dashboard/page.tsx:62 | up to the 28th, `setMonth` keeps the day |
| `Dates.DayNumberInjective` | app/transactions/page.tsx:48 | two valid dates with the same day count are the same date |
| `Dates.BeforeIffEarlier` | app/transactions/page.tsx:48 | on valid dates, calendar order and `getTime` order agree |
| `Dates.FormatThenParse` | app/recurring/page.tsx:49 | for years 0..9999, reading back the `YYYY-MM-DD` text gives the same date |
| `Dates.FormatDate` | app/recurring/page.tsx:49 | `toISOString().split("T")[0]` is ten characters for years 0..9999 and thirteen outside them |
| `Dates.ParseDate` | app/transactions/page.tsx:48 | `new Date(text)` yields a date only for ten-character text naming a real calendar date; everything else is an Invalid Date |
| `Dates.ParseThenFormat` | app/transactions/page.tsx:48 | text that parses as a date is exactly that date's `YYYY-MM-DD` text |
| `Dates.MonthKeyIsPrefix` | app/dashboard/page.tsx:27 | the month key is the first seven characters of the date's text |
| `Dates.MonthKey` | app/dashboard/page.tsx:27 | `toISOString().slice(0, 7)` is seven characters long |
| `Dates.MonthKeyIdentifiesMonth` | app/dashboard/page.tsx:27-28 | for years 0..9999, two dates share a month key exactly when they share a year and month |
| `Dates.MonthKeyIgnoresDay` | app/dashboard/page.tsx:63 | the month key does not depend on the day |
| `Dates.SetMonthKeyEarly` | app/dashboard/page.tsx:62-63 | up to the 28th, `setMonth` lands in the month it names |
| `Dates.MonthKeyText` | app/dashboard/page.tsx:63 | the month key is the four-digit year, a dash and the two-digit month |
| `Recurring.NextDate` | app/recurring/page.tsx:58-72 | the next date is a valid date |
| `Recurring.WeeklyIsSevenDaysLater` | app/recurring/page.tsx:61-62 | weekly: exactly seven days later, across month and year ends |
| `Recurring.MonthlyRollsOver` | app/recurring/page.tsx:64-65 | monthly: the same day of the next month when it has that day; otherwise the excess days spill into the month after, without clamping |
| `Recurring.YearlyFromLeapDay` | app/recurring/page.tsx:67-68 | yearly: the same day next year; 29 February becomes 1 March |
| `Recurring.NextDateIsLater` | app/recurring/page.tsx:58-72 | for every frequency the next date is strictly later, by day count and by calendar order |
| `Recurring.MonthlyIsLater` | app/recurring/page.tsx:64-65 | monthly: strictly later |
| `Recurring.YearlyIsLater` | app/recurring/page.tsx:67-68 | yearly: strictly later |
| `Recurring.NextDateExamples` | app/recurring/page.tsx:58-72 | 29 Jan → 5 Feb, 28 Dec → 4 Jan, 31 Jan 2024 → 2 Mar, 31 Jan 2023 → 3 Mar, 15 Mar → 15 Apr, 29 Feb 2024 → 1 Mar 2025 |
| `Recurring.NewRecurring` | app/recurring/page.tsx:43-51 | the submitted record takes the form's fields |
| `Recurring.NewRecurringStoresNextDate` | app/recurring/page.tsx:41-49 | the stored `nextDate` text reads back as the computed next date |
| `Recurring.SubmitRecurring` | app/recurring/page.tsx:36-54 | the record is appended under the new id, with its first date one period after today; the other collections are unchanged |
| `Recurring.MonthlyTotal` | app/recurring/page.tsx:186-206 | a card's total is never negative when no amount is; `MonthlyTotalAfterAdding`, `OtherFrequenciesExcluded` and `CardsCoverMonthlyItems` state which items it counts |
| `Recurring.MonthlyTotalAfterAdding` | app/recurring/page.tsx:186-206 | a card changes only for a monthly item of its kind, and then by that item's amount |
| `Recurring.OtherFrequenciesExcluded` | app/recurring/page.tsx:186-206 | weekly and yearly items never reach the cards |
| `Recurring.CardsCoverMonthlyItems` | app/recurring/page.tsx:186-206 | the two cards together count every monthly item exactly once |

## Left out

- Persistence is not modelled: the constructor's load from `localStorage` and `save()` (lib/data-store.ts:20-46). A store starts from the seed, and writes are not persisted.
- Ids come from `Date.now()` in the source (lib/data-store.ts:54, 86, 98, 120). Here the new id is a parameter, and ids are not assumed unique. Lookups take the first match, as the source does.
- Amounts are exact `real`s. Floating-point rounding, `parseFloat` and `toFixed` are not modelled.
- Time of day and time zones are not modelled. The source takes "today" from `new Date()` in local time and writes keys with `toISOString` in UTC. The model takes today's calendar date as a parameter.
- `toLowerCase` is modelled for ASCII letters only.
- `new Date(text)` is modelled for the `YYYY-MM-DD` form only. Other text counts as an Invalid Date (NaN), and so does `YYYY-MM-DD` text outside the calendar, such as 2024-02-30, which some engines roll over instead.
- TransactionsView.SortNewestFirst: the source's comparator yields NaN for an unreadable date. The order `sort` then produces is implementation-defined. The model uses an insertion sort, treats NaN as a tie, does not state the relative order of ties, and proves newest-first order only when every date parses; the permutation property holds for every input.
- Dates.FormatThenParse, Dates.MonthKeyIdentifiesMonth and Recurring.NewRecurringStoresNextDate are stated for years 0..9999. Outside that range `toISOString` writes a sign and six digits, which the `YYYY-MM-DD` reader does not accept.
- Dashboard.MonthlyData keeps the `YYYY-MM` key as each bar's label. The source's short month name from `toLocaleDateString` is not modelled.
- The optional `isRecurring` and `recurringFrequency` fields of a transaction (lib/types.ts:8-9) are not modelled: the core never sets or reads them.
- Not modelled: rendering, dialogs, charts, the `confirm()` before a delete, `window.location.reload()`, the FormData parsing of the forms, and authentication (lib/auth-context.tsx). The logged-in user's id is a parameter.

## Findings

| source | as written | input that shows it | evidently intended | confidence | as-written member | corrected member |
|---|---|---|---|---|---|---|
| app/dashboard/page.tsx:60-64 | each month of the series comes from `setMonth(getMonth() - i)` on today's date, so a day the target month lacks rolls over into the next month | today = 31 March 2025: the series is 2024-10, 2024-12, 2024-12, 2025-01, 2025-03, 2025-03, so November and February are missing and December and March appear twice | the six consecutive months ending with today's, e.g. by stepping back from the first of the month | not executed | `Dashboard.Last6Months`, `Dashboard.RepeatsMonthAtEndOfMarch` | `Dashboard.Last6MonthsFromFirst`, `Dashboard.FromFirstIsConsecutive`, `Dashboard.FromFirstHasNoRepeats` |
