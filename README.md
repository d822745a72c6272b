# Budget app front end: a verified model of its view logic

This project models the logic in the budget app's React views and proves properties about it. That logic is what the views derive from the records the server sends, and how the views' state changes on user input and server replies. It covers five views:

- **Transactions** (`transactions.dfy`). The records are filtered for the analytics year and for the table. They are then summed per category, per month × category and per category × month. The view also shows an average and a top category, pages the table ten rows at a time, and assigns each category a colour from a palette as rows are drawn.
- **Creatable select** (`creatable_select.dfy`). A combo box that filters its options case-insensitively and offers a `Create "<text>"` entry. Its `searchTerm`/`isOpen` state is changed by typing, focus, clicks and the clear button.
- **Net worth** (`net_worth.dfy`). A form of account rows that are edited, added and removed by id, then validated and turned into a snapshot request. The view also derives growth figures, the distinct account names and a per-snapshot breakdown.
- **Dashboard** (`dashboard.dfy`). Income and expense totals, the net-worth change since the previous snapshot, the five most recent transactions and the net-worth chart.
- **Income tracker** (`income_tracker.dfy`). The `incomes`, `totalIncome`, `error` and `loading` fields, and how they change on fetch, delete and add replies.

Shared pieces:

- `seqs.dfy` holds JavaScript's `filter`, `slice` and `Array.from(new Set(…))` and their properties.
- `strings.dfy` holds `toLowerCase`, `includes`, `trim`, the string order used by `sort()` and `localeCompare`, and `toString` of integers.
- `outcomes.dfy` holds the reporting of a failed request.
- `figures.dfy` holds the percent figures.

## Modelling choices

- **Representations**
  - Amounts are integers, so every sum is exact. The average is an exact real. Transaction and income amounts are read as cents. Net-worth snapshot amounts are whole units, so `acc.amount.toString()` is the decimal text of an integer.
  - A transaction's `company` and `category` are `{name}` objects in the source. The model keeps just the names.
  - An income's amount is a number, as the dashboard sums it.
- **Dates and text**
  - The year of a date is its first four characters; the month key is `date.substring(0, 7)`.
  - `toLowerCase` lowers ASCII letters only.
  - `sort()` and `localeCompare` on month keys are modelled by `StrLt`, lexicographic code-point order. It equals JavaScript's UTF-16 code-unit order, which `sort()` uses, below U+10000. It also equals `localeCompare` on month keys, because those are `YYYY-MM`: digits and one hyphen in fixed positions, on which locale order and code-unit order agree (on letters they do not: `localeCompare` puts "a" before "B").
- **Objects and state**
  - The month buckets, breakdown rows and colour map are `map`s.
  - The components' state lives in classes (`Pager`, `CategoryColors`, `ComboBox`, `NetWorthForm`, `IncomeView`). Each handler is a method, and each setter call is a field update.
  - Server replies are method calls. A failure is `NotOk` (the thrown `'Failed to …'` error), `Thrown(message)` or `NonError`, and `ErrorText` is the `catch` applied to what was thrown, which gives the text the view shows.
  - The clock reading used as a new row id (`Date.now()`) is a parameter.
  - The parent of the combo box stores whatever `onChange` emits.

## Model

| member | source | states |
|---|---|---|
| Seqs.Filter | src/components/Transactions.tsx:216-229 | `filter` keeps an order-preserving subsequence holding exactly the elements that pass |
| Seqs.FilterMultiset | src/components/Transactions.tsx:216-229 | every passing element keeps its number of occurrences, and failing ones have none |
| Seqs.Distinct | src/components/Transactions.tsx:213 | `Array.from(new Set(s))` has no duplicates and the same elements as `s` |
| Seqs.DistinctOrder | src/components/Transactions.tsx:213 | of two elements, the one that occurs first in `s` comes first in the de-duplicated list |
| Seqs.JsSliceInRange | src/components/Transactions.tsx:293 | `slice` with in-range non-negative bounds is the plain subsequence, clamped at the end |
| Strings.Lower | src/components/Transactions.tsx:222-223 | `toLowerCase()` keeps the length and lowers each character on its own, ASCII letters only |
| Strings.Trim | src/components/CreateableSelect.tsx:29 | defines `searchTerm.trim()` (no contract of its own); its property is the `Strings.TrimEmptyIffBlank` row |
| Strings.ContainsIff | src/components/Transactions.tsx:222-223 | `includes` holds exactly when the needle occurs at some position |
| Strings.TrimEmptyIffBlank | src/components/CreateableSelect.tsx:29 | `trim()` is empty exactly when the text is all white space |
| Strings.StrLtTotal | src/components/Transactions.tsx:264 | the string order is strict and total: two different keys are ordered one way, never both |
| Strings.SortDistinct | src/components/Transactions.tsx:267-269 | `Array.from(new Set(s)).sort()` is strictly ascending with the same elements as `s` |
| Strings.AscendingUnique | src/components/Transactions.tsx:267-269 | a strictly ascending list is fixed by its elements, so the sorted result is unique |
| Strings.NatToStringInjective | src/components/NetWorth.tsx:399-400 | different indices give different `i.toString()` ids |
| Strings.IntToString | src/components/NetWorth.tsx:402 | `amount.toString()` is never empty and begins with `-` exactly for a negative amount |
| Transactions.Categories | src/components/Transactions.tsx:213 | each category of the fetched records exactly once |
| Transactions.CategoriesFirstAppearance | src/components/Transactions.tsx:213 | categories are listed in the order of their first record |
| Transactions.AnalyticsFiltered | src/components/Transactions.tsx:216-218 | the records whose year is the analytics year, in order, each with its multiplicity |
| Transactions.MatchesSearch | src/components/Transactions.tsx:221-223 | defines `matchesSearch` (no contract of its own); the `Transactions.TableFiltered` row states what it keeps |
| Transactions.MatchesCategory | src/components/Transactions.tsx:225-226 | defines `matchesCategory` (no contract of its own); the `Transactions.TableFiltered` row states what it keeps |
| Transactions.TableFiltered | src/components/Transactions.tsx:220-229 | a record is kept iff (empty search, or the lowered term is in the lowered company or item) and (category `'all'` or equal), in order |
| Transactions.TableFilterNeutral | src/components/Transactions.tsx:221-226 | empty search and `'all'` show the whole list |
| Transactions.SearchExample | src/components/Transactions.tsx:221-223 | searching "amazon" keeps Amazon and drops Whole Foods |
| Transactions.CategoryExample | src/components/Transactions.tsx:225-226 | category "Groceries" keeps only the Groceries record |
| Transactions.TotalAmount | src/components/Transactions.tsx:232-234 | defines the `reduce` sum of amounts (no contract of its own); its properties are the `Transactions.TotalAmountConcat` and `Transactions.PartitionTotal` rows |
| Transactions.TotalSpent | src/components/Transactions.tsx:232-234 | defines `totalSpent` over the analytics records (no contract of its own); the `Transactions.CategoryDataSumsToTotalSpent` row relates it to the category totals |
| Transactions.TotalAmountConcat | src/components/Transactions.tsx:232-234 | the sum over two lists is the sum of their sums |
| Transactions.CategoryData | src/components/Transactions.tsx:236-239 | one entry per category, in order, with that category's sum over the analytics set |
| Transactions.CategoryDataSumsToTotalSpent | src/components/Transactions.tsx:213-239 | the category values add up to `totalSpent` |
| Transactions.PartitionTotal | src/components/Transactions.tsx:236-239 | grouping by a key listed once per value and adding the groups gives the total |
| Transactions.BucketStep | src/components/Transactions.tsx:242-249 | adding one record to its month bucket keeps every bucket exact |
| Transactions.AddRecord | src/components/Transactions.tsx:243-247 | the record's month bucket exists afterwards and its category cell grows by the amount; every other bucket and cell is unchanged |
| Transactions.MonthlyCategorical | src/components/Transactions.tsx:242-249 | one bucket per month present; each holds a cell per category present that month, equal to its sum |
| Transactions.SortedMonths | src/components/Transactions.tsx:267-269 | `months` is strictly ascending and holds exactly the months present |
| Transactions.MonthlyChartData | src/components/Transactions.tsx:251-264 | one row per month, strictly ascending by `monthKey`, cells as in the buckets, `total` summed over `categories` |
| Transactions.MonthRowTotalIsMonthSpending | src/components/Transactions.tsx:261 | a row's total is the month's whole spending when `categories` covers every category once |
| Transactions.MonthTotalsSumToTotal | src/components/Transactions.tsx:242-264 | the month totals add up to the analytics total |
| Transactions.CellIsCategoryOfMonth | src/components/Transactions.tsx:242-249 | a cell is the category sum within the month's records |
| Transactions.Breakdown | src/components/Transactions.tsx:272-282 | a row has a cell per month with that category-month sum, and a running total of the cells |
| Transactions.CategoryBreakdown | src/components/Transactions.tsx:271-283 | one breakdown row per category, in `categories` order |
| Transactions.BreakdownTotalIsSumOfCells | src/components/Transactions.tsx:279-281 | `row.total` is the sum of the row's cells |
| Transactions.BreakdownTotalIsCategoryTotal | src/components/Transactions.tsx:236-283 | over the sorted months, a row total equals that category's `categoryData` value |
| Transactions.AverageAmount | src/components/Transactions.tsx:286-288 | 0 for no records, otherwise the mean: times the count it gives the sum |
| Transactions.AverageBetweenBounds | src/components/Transactions.tsx:286-288 | the mean lies between the smallest and the largest amount |
| Transactions.TopFromSpec | src/components/Transactions.tsx:290 | the fold keeps its seed unless beaten, else finds the earliest maximal entry |
| Transactions.TopCategory | src/components/Transactions.tsx:290 | `{N/A, 0}` unless a total is positive, otherwise the earliest category with the largest total |
| Transactions.TotalPages | src/components/Transactions.tsx:292 | `ceil(n / 10)` |
| Transactions.PageOf | src/components/Transactions.tsx:293 | defines `currentTransactions`, the `slice` of one page (no contract of its own); its properties are the `Transactions.PageContents` and `Transactions.AllPagesCoverAll` rows |
| Transactions.PageContents | src/components/Transactions.tsx:293 | page p shows records `[(p-1)*10, min(p*10, n))`: at most ten, none past the last page |
| Transactions.AllPagesCoverAll | src/components/Transactions.tsx:292-293 | the pages laid end to end are the whole table |
| Transactions.Pager.constructor | src/components/Transactions.tsx:39 | the table starts on page 1 |
| Transactions.Pager.Previous | src/components/Transactions.tsx:643-644 | disabled on page 1, otherwise one page back |
| Transactions.Pager.Next | src/components/Transactions.tsx:654-655 | disabled on the last page or with no pages, otherwise one page on |
| Transactions.StalePageAfterFilter | src/components/Transactions.tsx:292-293 | a page left above a shrunken table shows nothing yet keeps Next enabled |
| Transactions.TwentyFiveRecords | src/components/Transactions.tsx:292-293 | 25 records make 3 pages; page 3 holds records 21-25 and disables Next |
| Transactions.CategoryColors.constructor | src/components/Transactions.tsx:22 | each render starts with an empty colour map |
| Transactions.CategoryColors.ColorOf | src/components/Transactions.tsx:22-28 | a known category keeps its colour; the k-th new one gets `COLORS[k mod 15]` and the map only grows |
| Transactions.RenderRowColors | src/components/Transactions.tsx:22-28 | within one render, row k gets the colour of its category's first-appearance rank |
| Transactions.RepeatedCategoryColors | src/components/Transactions.tsx:22-28 | rows of categories a, b, a (say Shopping, Groceries, Shopping) get `COLORS[0]`, `COLORS[1]`, `COLORS[0]` |
| Transactions.SubmitRequest | src/components/Transactions.tsx:128-137 | nothing is sent when a field is empty; otherwise a PUT to the edited record, or a POST |
| CreatableSelect.FilteredOptions | src/components/CreateableSelect.tsx:25-27 | the options containing the typed text, ignoring case, in order, each repeated option kept as often as it occurs |
| CreatableSelect.ShowCreateOptionIff | src/components/CreateableSelect.tsx:29-30 | the create entry is offered iff the text is not blank and no option equals it ignoring case |
| CreatableSelect.CreateLabel | src/components/CreateableSelect.tsx:33 | `Create "${searchTerm}"` starts with `Create "`, is 9 characters longer than the text, holds the text at 8 and ends in `"` |
| CreatableSelect.DisplayOptions | src/components/CreateableSelect.tsx:32-34 | the filtered options, plus exactly one trailing create entry when it is offered |
| CreatableSelect.DisplayOptionsNonEmpty | src/components/CreateableSelect.tsx:25-34 | a non-blank text always has at least one entry to show |
| CreatableSelect.OptionValue | src/components/CreateableSelect.tsx:48-52 | defines what `handleOptionClick` passes to `onChange` (no contract of its own); its properties are the `CreatableSelect.CreateRoundTrip`, `CreatableSelect.PlainOptionValue` and `CreatableSelect.DisplayedOptionValue` rows |
| CreatableSelect.PlainOptionValue | src/components/CreateableSelect.tsx:48-52 | an option that does not start with `Create "` is passed to `onChange` as it is (the `else` branch) |
| CreatableSelect.CreateRoundTrip | src/components/CreateableSelect.tsx:33-49 | `slice(8, -1)` of `Create "t"` is `t` |
| CreatableSelect.DisplayedOptionValue | src/components/CreateableSelect.tsx:32-52 | a clicked entry emits the typed text (create entry) or itself, unless it is an option beginning with `Create "` |
| CreatableSelect.WrappedOptionIsUnwrapped | src/components/CreateableSelect.tsx:48-49 | an existing option `Create "Rent"` is emitted as `Rent` |
| CreatableSelect.DisplayValue | src/components/CreateableSelect.tsx:57 | `value` when set, else the search term |
| CreatableSelect.ComboBox.ClearButtonShown | src/components/CreateableSelect.tsx:71 | defines the render condition `value && !isOpen` (no contract of its own); the `CreatableSelect.ComboBox.Clear` row requires it |
| CreatableSelect.ComboBox.DropdownShown | src/components/CreateableSelect.tsx:82 | defines `isOpen && displayOptions.length > 0` (no contract of its own); the `CreatableSelect.ComboBox.Type` row states when it holds |
| CreatableSelect.ComboBox.Type | src/components/CreateableSelect.tsx:65 | the text becomes the search term and the box opens; a non-blank text shows the dropdown; a set value stays on screen |
| CreatableSelect.ComboBox.Focus | src/components/CreateableSelect.tsx:66 | opens, and copies a set value into the search term |
| CreatableSelect.ComboBox.ClickOption | src/components/CreateableSelect.tsx:47-55 | emits the option's value; afterwards the search term is empty and the box is closed |
| CreatableSelect.ComboBox.Clear | src/components/CreateableSelect.tsx:71-74 | available only while the button is shown (a value set, the box closed); emits `''` and empties the search term |
| CreatableSelect.ComboBox.constructor | src/components/CreateableSelect.tsx:21-22 | starts closed with an empty search term, holding the parent's value and options |
| CreatableSelect.ComboBox.ClickOutside | src/components/CreateableSelect.tsx:37-41 | closes, and drops the search term when a value is set |
| CreatableSelect.TypeAndCreate | src/components/CreateableSelect.tsx:29-65 | typing a new name and clicking the create entry hands exactly that name to the parent |
| NetWorth.NetWorthForm.constructor | src/components/NetWorth.tsx:23-29 | form hidden, no error, no date, no edit, one blank row `'1'`, no snapshots, no new names |
| NetWorth.NetWorthForm.ToggleForm | src/components/NetWorth.tsx:171 | flips `showForm` and changes nothing else |
| NetWorth.NetWorthForm.SetDate | src/components/NetWorth.tsx:211 | the date input sets `date` and changes nothing else |
| NetWorth.NetWorthForm.Loaded | src/components/NetWorth.tsx:158 | the loaded snapshots replace `netWorthData`; nothing else changes |
| NetWorth.ChangedRows | src/components/NetWorth.tsx:31-33 | only `field` of the rows with that id changes; length, order and other rows stay |
| NetWorth.NetWorthForm.ChangeAccount | src/components/NetWorth.tsx:31-33 | the rows become `ChangedRows`, with distinct ids kept |
| NetWorth.NetWorthForm.NewAccountInput | src/components/NetWorth.tsx:35-37 | records the typed name for that row id |
| NetWorth.NetWorthForm.AddAccount | src/components/NetWorth.tsx:40-42 | appends exactly one blank row at the end |
| NetWorth.RemovedRows | src/components/NetWorth.tsx:46 | the rows without that id, in order |
| NetWorth.RemovedRowsLength | src/components/NetWorth.tsx:44-48 | with distinct ids exactly one row goes if the id is present, none otherwise |
| NetWorth.NetWorthForm.RemoveAccount | src/components/NetWorth.tsx:44-48 | ignored with a single row; with distinct ids the list never becomes empty |
| NetWorth.SharedIdEmptiesList | src/components/NetWorth.tsx:44-48 | two rows sharing an id are both removed, so the guard relies on distinct ids |
| NetWorth.EntryName | src/components/NetWorth.tsx:93 | defines `acc.name === '_new' ? newAccountNames[acc.id] : acc.name`, an absent name for an untyped new row (no contract of its own); the `NetWorth.Payload` row states its use |
| NetWorth.Payload | src/components/NetWorth.tsx:92-95 | one entry per row, in order; `'_new'` rows are named by `newAccountNames[id]` |
| NetWorth.SubmitRequest | src/components/NetWorth.tsx:74-95 | nothing is sent unless the date and every name and amount are set; PUT when editing, else POST |
| NetWorth.NetWorthForm.Submit | src/components/NetWorth.tsx:74-77 | an incomplete form sets `'Please fill in all fields'` and sends nothing |
| NetWorth.FormComplete | src/components/NetWorth.tsx:74 | the check as written (see Findings) |
| NetWorth.UnnamedNewAccountAccepted | src/components/NetWorth.tsx:74-93 | a `'_new'` row with no typed name passes and is sent without a name |
| NetWorth.CompleteFormNamesEveryEntry | src/components/NetWorth.tsx:74-93 | under the stricter check every entry sent has a non-empty name |
| NetWorth.NetWorthForm.SaveSucceeded | src/components/NetWorth.tsx:105-112 | shows the refreshed list and resets to one blank row `'1'`, no edit, no date, no names, form hidden |
| NetWorth.NetWorthForm.SaveFailed | src/components/NetWorth.tsx:99-114 | sets the error text of the failure |
| NetWorth.NetWorthForm.DeleteSucceeded | src/components/NetWorth.tsx:62-65 | shows the refreshed list |
| NetWorth.NetWorthForm.DeleteFailed | src/components/NetWorth.tsx:59-67 | sets the error text of the failure |
| NetWorth.EditRows | src/components/NetWorth.tsx:399-403 | rows with ids "0".."n-1" carrying the snapshot's names and amounts |
| NetWorth.EditRowsDistinct | src/components/NetWorth.tsx:399-400 | the loaded rows have distinct ids |
| NetWorth.NetWorthForm.Edit | src/components/NetWorth.tsx:396-404 | keys the save by the snapshot's date, loads its date and rows, shows the form |
| NetWorth.NetWorthForm.Cancel | src/components/NetWorth.tsx:304-308 | hides and blanks the form but keeps `editingId` (see Findings) |
| NetWorth.CancelledEditStillPuts | src/components/NetWorth.tsx:302-308 | edit, cancel, enter a new snapshot: the save is a PUT to the old snapshot |
| NetWorth.NetWorthForm.CancelEdit | src/components/NetWorth.tsx:304-308 | the corrected cancel, which also clears `editingId` |
| NetWorth.CancelledEditPosts | src/components/NetWorth.tsx:302-308 | with the corrected cancel the new snapshot is POSTed |
| NetWorth.CurrentTotal | src/components/NetWorth.tsx:118 | defines `currentTotal`, with `|| 0` for an unparsable amount (no contract of its own); its property is the `NetWorth.AddedRowKeepsTotal` row |
| NetWorth.CurrentNetWorth | src/components/NetWorth.tsx:119 | defines `currentNetWorth`, the last total or 0 (no contract of its own); its properties are the `NetWorth.GrowthAfterSnapshot` and `Dashboard.TwoSnapshotsAgree` rows |
| NetWorth.FirstNetWorth | src/components/NetWorth.tsx:120 | defines `firstNetWorth`, the first total or 0 (no contract of its own); its properties are the `NetWorth.GrowthPercent` and `NetWorth.GrowthAfterSnapshot` rows |
| NetWorth.TotalGrowth | src/components/NetWorth.tsx:121 | defines `totalGrowth` (no contract of its own); its properties are the `NetWorth.GrowthAfterSnapshot` and `NetWorth.SingleSnapshotGrowth` rows |
| NetWorth.AddedRowKeepsTotal | src/components/NetWorth.tsx:118 | a blank row adds nothing to `currentTotal` |
| NetWorth.GrowthPercent | src/components/NetWorth.tsx:119-122 | `'0'` iff the first total is not positive, else growth / first × 100 |
| NetWorth.GrowthAfterSnapshot | src/components/NetWorth.tsx:118-121 | a new last snapshot keeps the first total and adds its change from the previous last total to `totalGrowth` |
| NetWorth.SingleSnapshotGrowth | src/components/NetWorth.tsx:118-121 | with one snapshot the growth is 0, and the percent is `'0'` or a zero ratio depending on the sign of its total |
| NetWorth.AccountNamesOf | src/components/NetWorth.tsx:125 | the `flatMap` holds exactly the names of every snapshot's accounts, snapshot by snapshot and account by account: account j of snapshot i sits after all accounts of the snapshots before i |
| NetWorth.AllAccountNames | src/components/NetWorth.tsx:125 | each account name once |
| NetWorth.AllAccountNamesOrder | src/components/NetWorth.tsx:125 | names keep the order of their first occurrence |
| NetWorth.TotalChartData | src/components/NetWorth.tsx:127-130 | one point per snapshot, in order, with its date and total |
| NetWorth.LastAmountIsLast | src/components/NetWorth.tsx:134 | a name's amount is that of its last account, later ones overwriting earlier |
| NetWorth.BreakdownRowOf | src/components/NetWorth.tsx:133-135 | the date, and each account name present with its last amount |
| NetWorth.AccountBreakdown | src/components/NetWorth.tsx:132-136 | one row per snapshot, in order |
| Figures.PercentOf | src/components/Dashboard.tsx:17 | `'0'` iff the base is not positive, else the exact ratio × 100 |
| Figures.PercentSign | src/components/Dashboard.tsx:17 | a shown ratio has the sign of the change |
| Outcomes.ErrorText | src/components/IncomeTracker.tsx:42-48 | the `catch` applied to what was thrown shows the fixed text for a bad reply, the message of a thrown `Error`, and the fallback for anything else |
| Outcomes.BadReplyIsThrownError | src/components/IncomeTracker.tsx:42-48 | a reply that is not `ok` is reported exactly like a thrown `Error` carrying the same text, since the handler throws one and the `catch` shows `err.message` |
| Outcomes.FallbackOnlyForNonError | src/components/IncomeTracker.tsx:42-48 | with a fixed text unlike the fallback, the fallback is shown iff a non-`Error` was thrown or an `Error` carried the fallback's own text |
| Dashboard.TotalIncome | src/components/Dashboard.tsx:12 | defines `totalIncome` (no contract of its own); its properties are the `Dashboard.TotalIncomeAfterAdd` and `Dashboard.TotalIncomeConcat` rows |
| Dashboard.TotalExpenses | src/components/Dashboard.tsx:13 | defines `totalExpenses` (no contract of its own); its property is the `Dashboard.ExpensesAreCategoryTotals` row |
| Dashboard.PreviousNetWorth | src/components/Dashboard.tsx:15 | defines `previousNetWorth`, the second-to-last total or 0 (no contract of its own); its properties are the `Dashboard.ChangePercent` and `Dashboard.SingleSnapshot` rows |
| Dashboard.NetWorthChange | src/components/Dashboard.tsx:16 | defines `netWorthChange` (no contract of its own); its properties are the `Dashboard.TwoSnapshotsAgree`, `Dashboard.SingleSnapshot` and `Dashboard.ArrowUp` rows |
| Dashboard.TotalIncomeAfterAdd | src/components/Dashboard.tsx:12 | a new income raises the total by its amount |
| Dashboard.TotalIncomeConcat | src/components/Dashboard.tsx:12 | the total over two lists is the sum of their totals |
| Dashboard.ExpensesAreCategoryTotals | src/components/Dashboard.tsx:13 | the dashboard's expenses equal the transaction view's category totals added up |
| Dashboard.ChangePercent | src/components/Dashboard.tsx:15-17 | `'0'` iff the previous total is not positive, else change / previous × 100 |
| Dashboard.TwoSnapshotsAgree | src/components/Dashboard.tsx:14-17 | with exactly two snapshots the change and its percent equal the net-worth view's `totalGrowth` and `growthPercent` |
| Dashboard.SingleSnapshot | src/components/Dashboard.tsx:14-17 | with one snapshot the change is its total and the percent shows `'0'` |
| Dashboard.RecentTransactions | src/components/Dashboard.tsx:19 | the first min(5, n) transactions, in order |
| Dashboard.ChartData | src/components/Dashboard.tsx:21-24 | one `{date, amount}` point per snapshot, in order, with `amount` its total |
| Dashboard.SameSeriesAsNetWorthChart | src/components/Dashboard.tsx:21-24 | the dashboard chart plots the same dates and totals as the net-worth view's chart |
| Dashboard.ArrowUp | src/components/Dashboard.tsx:15-63 | when a ratio is shown (previous total positive), the green up-arrow and `+` appear iff the shown percent is not negative, so arrow and figure never disagree |
| IncomeTracker.QueryFor | src/components/IncomeTracker.tsx:38 | `''` exactly for `'all'`, otherwise `?year=` followed by the year |
| IncomeTracker.QueryInjective | src/components/IncomeTracker.tsx:38 | different filters request different queries |
| IncomeTracker.WithoutIncome | src/components/IncomeTracker.tsx:68 | the incomes without that id, in order |
| IncomeTracker.WithoutIncomeCounts | src/components/IncomeTracker.tsx:68 | exactly the entries with that id are dropped |
| IncomeTracker.IncomeView.constructor | src/components/IncomeTracker.tsx:6-17 | no incomes, `loading` true, no error, form hidden and blank, filter `'all'`, total 0 |
| IncomeTracker.IncomeView.SelectYear | src/components/IncomeTracker.tsx:198 | the year select sets `yearFilter` and changes nothing else |
| IncomeTracker.IncomeView.ToggleForm | src/components/IncomeTracker.tsx:112 | flips `showForm` and changes nothing else |
| IncomeTracker.IncomeView.EditForm | src/components/IncomeTracker.tsx:144-182 | the form inputs and Cancel set the form and its visibility; the list, filter and total stay |
| IncomeTracker.IncomeView.FetchStarted | src/components/IncomeTracker.tsx:37-38 | sets `loading` and sends the query for the filter |
| IncomeTracker.IncomeView.FetchSucceeded | src/components/IncomeTracker.tsx:43-51 | shows the year's incomes and the all-time or year total, clears the error, ends loading |
| IncomeTracker.IncomeView.FetchFailed | src/components/IncomeTracker.tsx:42-51 | sets the error, empties the list, ends loading, keeps the total |
| IncomeTracker.IncomeView.DeleteSucceeded | src/components/IncomeTracker.tsx:65-69 | drops the entries with that id and clears the error; the total stays |
| IncomeTracker.IncomeView.DeleteFailed | src/components/IncomeTracker.tsx:65-72 | leaves the list and sets the error |
| IncomeTracker.IncomeView.Submit | src/components/IncomeTracker.tsx:78 | an empty date, source or amount sends nothing |
| IncomeTracker.IncomeView.AddSucceeded | src/components/IncomeTracker.tsx:94-97 | prepends the new income, clears and hides the form; the total stays |
| IncomeTracker.IncomeView.AddFailed | src/components/IncomeTracker.tsx:92-100 | leaves the list and sets the error |
| IncomeTracker.TotalOnlyFromFetch | src/components/IncomeTracker.tsx:44-97 | after a fetch, an add and a delete change the list but the shown total stays the fetched one |

## Left out

- Network requests, `useEffect` wiring, stale-response races and the years fetch: each server reply is a method call instead.
- The Transactions refresh after save or delete, which queries `filterYear`: the analytics model does not assume the records share one year.
- Rendering, charts, icons and styling. This includes the `20` alpha suffix on the row background colour and `Page {currentPage} of {totalPages || 1}`.
- `toFixed`, `toLocaleString`, `toLocaleDateString` and the month names of the chart rows: these are locale and floating-point text. Percent figures are exact reals.
- JavaScript `Date` parsing and time zones, so the year is the first four characters of the date. `availableYears` (Transactions.tsx:295) and the default `currentYear` depend on this and are not modelled.
- `parseFloat` and IEEE doubles. Form amounts stay as typed text, and `currentTotal` takes the parse as a parameter.
- `confirm()` dialogs and the DOM mousedown listener. Only the listener's effect is modelled, as `ClickOutside`.
- `toLowerCase` beyond ASCII letters.
- JavaScript object-key collisions: a category named `month`, `monthKey` or `total`, an account named `date`, or a prototype key such as `constructor` in `categoryColorMap`. The cells are kept in maps apart from those fields.
- The Transactions form setters `handleEdit` and `handleCancelEdit`, and the view's own toggles. Only the submit check and the PUT/POST choice are modelled.
- The `Income.amount: string` declaration in App.tsx and its `Transaction` type; App.tsx, Login.tsx and Sidebar.tsx hold no logic beyond setters.
- NetWorth.EditRows: snapshot amounts are integers, so a fractional amount such as 12.5 and its `toString()` text are not modelled.
- Transactions.RenderRowColors: it models the colours of the rows drawn in one render. The map is re-created on every render, so colours are not promised to stay the same across renders.

## Findings

| source | as written | input that shows it | evidently intended | confidence | as-written member | corrected member |
|---|---|---|---|---|---|---|
| src/components/NetWorth.tsx:302-308 | Cancel hides and blanks the form but leaves `editingId` set | Edit a snapshot, press Cancel, open the form and save a new snapshot: it is sent as a PUT to the old snapshot's date | Cancel ends the edit, as the transaction view's `handleCancelEdit` does (Transactions.tsx:207-211) | medium, not executed | NetWorth.NetWorthForm.Cancel, NetWorth.CancelledEditStillPuts | NetWorth.NetWorthForm.CancelEdit, NetWorth.CancelledEditPosts |
| src/components/NetWorth.tsx:74-93 | the check accepts a row whose name is `'_new'` even when no new name was typed | one row `{id: '1', name: '_new', amount: '100'}` with `newAccountNames` empty: the entry is sent with `accountName` undefined | a `'_new'` row needs a typed, non-empty name before saving | medium, not executed | NetWorth.FormComplete, NetWorth.UnnamedNewAccountAccepted | NetWorth.FormCompleteWithNames, NetWorth.CompleteFormNamesEveryEntry |
