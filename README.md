# Workforce entitlement and payroll engine — a Dafny model

This project models the computing core of a small workforce application. The application keeps its
tables in Notion databases: duty roster, overtime counts, overtime rules, leave requests, yearly
vacation balances, attendance, lunch orders and salaries. Its core is the set of routines in `app.py`
that turn those tables into money:

- **Field resolver.** Property names are normalised: full-width brackets become half-width, spaces
  are removed, and the name is stripped and lower-cased. A wanted name is then found among a
  database's property keys, exact match first. The module also reads and writes text-like
  property values and builds equality filters.
- **Duty-roster name cells.** A cell is parsed into employee names from either a list or a text
  with the separators `、 , ， ; ； \n \t`. The text is de-duplicated where the roster is read
  back. A list is serialised as `"A, B"`. The day number is extracted from the day text, and rows
  are sorted by day, with rows without a day last.
- **Overtime.** The model counts each employee's appearances in the roster on weekdays
  (Monday–Friday). Two shifts on one day count twice. The counts are upserted into the overtime-count
  table, one record per (employee, year, month), and the sync reports successes and failures.
  Weekday overtime pay is the recorded hours times the month's hourly rate.
- **Vacation.** The approved-status label is chosen from the status options. Approved vacation hours
  are summed for a year. The balance row is ensured to exist, a balance snapshot is read
  (remaining = max(0, total − used)), and a request is validated against it. The cash-out turns
  remaining hours into days: a non-positive hours-per-day falls back to 8, days are whole or
  rounded to 2 decimals, and the result is capped.
- **Lunch settlement.** The month runs from its first day up to the next month's first day. Eligible
  attendance records are those with status 出席 or 遲到; duplicates are kept. Days are sorted and
  kept only if they fall Monday–Saturday inside the month. The entitlement is 90 per day, and the
  settlement difference is entitlement minus what was ordered.
- **Payroll.** The model computes the totals: gross is the sum of the 14 additions, the deduction
  total is the sum of the 8 deductions, and net is gross minus deductions, unless a total is
  supplied. The salary upsert writes only the properties the table has, one record per (employee,
  year, month). The record is read back with every amount defaulting to 0. Stored meal allowance
  and weekday overtime take precedence over the suggested values. The payable amount is computed
  last.

The Notion transport is modelled as plain data:

- A database is a value, or a class holding pages and the next page id.
- A query is a filter over that data.
- A failing request of a modelled query or write is an input flag (`fails`, `rejected`,
  `lookupFails`, `writeFails`, `recordFails`, `countFails`, `attendanceFails`, `ordersFails`, the
  vacation `Faults`). It takes the value the application falls back to: no rows, 0, false or none.
  Queries that are not modelled, such as the overtime rule's, are listed under "## Left out".

Code that updates state step by step is written as classes and methods. Each method is proved
against a function on values: `OvertimeCountTable`, `VacationTable`, `SalaryTable`, the roster
counting loop, the name-splitting loops, the vacation sum loop and the lunch working-day loop.

Modules:

- `Wrappers`, `Money`, `Seqs`, `Calendar` and `Text`: shared definitions. `Calendar` uses the
  proleptic Gregorian ordinal, with weekday Monday = 0. `Text` models Python's `strip`, `lower`,
  `split(" ")` and `isdigit`.
- `FieldResolver`
- `DutyRoster`
- `DaySort`
- `Overtime`
- `Cashout`
- `Vacation`
- `Lunch`
- `Payroll`

## Model

| member | source | states |
|---|---|---|
| FieldResolver.NormPropName | app.py:1174-1182 | The normal form has no ASCII space, no full-width bracket or space and no NBSP. It is lower-case and stripped. |
| FieldResolver.NormIdempotent | app.py:1174-1182 | Normalising a normal form leaves it unchanged. |
| FieldResolver.NormIgnoresSpace | app.py:1179-1181 | Inserting a space, an ideographic space or an NBSP anywhere does not change the normal form. |
| FieldResolver.NormFullWidthBracket | app.py:1179-1180 | A full-width bracket normalises like its half-width counterpart. |
| FieldResolver.NormCaseInsensitive | app.py:1182 | Lower-casing a name first does not change its normal form. |
| FieldResolver.ResolvePropKey | app.py:1184-1196 | An empty schema gives none. A wanted name that is itself a key is returned. Otherwise the result is a key with the same normal form. There is none exactly when no key has that normal form. |
| FieldResolver.ResolveStable | app.py:1184-1196 | Resolving a resolved key gives that key back. |
| FieldResolver.ResolveFirstTolerant | app.py:1193-1195 | Without an exact match, the first key in schema order with the wanted normal form is chosen. |
| FieldResolver.FindPrefixKey | app.py:2949-2954 | The result is a key starting with the prefix. There is none exactly when no key starts with it. |
| FieldResolver.PickKey | app.py:2956-2965 | The first candidate present wins. Failing that, the first key with the prefix wins. Failing that, the first candidate is returned even when absent. There is none only without candidates and without a prefix match. |
| FieldResolver.GetPropPlainText | app.py:148-177 | An absent property reads as empty. Its other ensures list the reading of each property type; what the reading means is carried by BuildThenRead and FilterFindsWritten, which relate it to the writer and the filter. |
| FieldResolver.BuildTextProperty | app.py:328-336 | Only title and rich-text types give a payload, and it is of that type. Each of its text fragments is non-empty and stripped. |
| FieldResolver.BuildThenRead | app.py:328-336 | Reading back a built title or rich-text property gives the stripped value. |
| FieldResolver.EqualsFilter | app.py:361-372 | There is no filter for an empty stripped value or for a type other than title or rich text. Otherwise the filter is on that property and matches the stripped value, on title exactly when the type is title. |
| FieldResolver.FilterFindsWritten | app.py:328-372 | The equality filter matches the property built from the same value. |
| DutyRoster.ParseNamesCell | app.py:1593-1604 | The loop-based parse equals the specification: a list keeps its stripped non-empty items, and a text is split at the separators and spaces. |
| DutyRoster.ParseTextNames | app.py:1600-1604 | Every parsed name is non-empty, stripped and free of separators and ASCII spaces. |
| DutyRoster.ParseSingleName | app.py:1600-1604 | A clean single name parses to itself. |
| DutyRoster.SplitNames | app.py:1974-1987 | The result is the de-duplicated parse in first-seen order. It has no duplicates and holds exactly the names of the parse. |
| DutyRoster.SerializeRoundTrip | app.py:1781-1782 | Parsing a list serialised as `"A, B"` gives the list back. |
| DutyRoster.ListAndTextAgree | app.py:1593-1604 | A list cell and its serialised text parse to the same names. |
| DutyRoster.DayFromText | app.py:1096-1099 | There is no day exactly when the text has no digit. |
| DutyRoster.DayFromTextShow | app.py:1096-1099 | A number followed by non-digits, as in "12日", reads as that number. |
| DaySort.FetchKey | app.py:1115 | A row without digits in its day sorts with key 999. A row whose day text is "n…" sorts with key n. |
| DaySort.SortRows | app.py:1115 | The rows come out ordered by sort key. |
| DaySort.SortPermutes | app.py:1115 | Sorting keeps every row with its multiplicity. |
| DaySort.SortStable | app.py:1115 | Rows with equal keys keep their relative order, as Python's stable sort does. |
| DaySort.EmptyDaysLast | app.py:1115 | A row without a day comes after every row with a day below 999. |
| Overtime.NameCols | app.py:1623-1624 | The name columns are exactly the first row's columns other than 日期, 星期 and 備註. There are none without rows. |
| Overtime.CountMapCounts | app.py:1643-1649 | The count map's keys are exactly the names that appear. Each count is the number of appearances. |
| Overtime.CalcOvertimeHours | app.py:1607-1651 | The loop computes the count map of the weekday appearances, and the employees in first-appearance order. |
| Overtime.IneligibleRowIgnored | app.py:1627-1641 | A row whose day is missing, not positive, not a date of the month, or a Saturday or Sunday adds nothing. |
| Overtime.EligibleRowAdds | app.py:1643-1649 | A weekday row adds each of its names' appearances in every name column. |
| Overtime.TwoShiftsOneDay | app.py:1643-1649 | The same employee in two columns of one weekday counts 2. |
| Overtime.CountedDaysExample | app.py:1636-1641 | 2026-02-02, a Monday, counts; 2026-03-01, a Sunday, does not. |
| Overtime.UpsertCount | app.py:1546-1590 | An empty stripped name or a failed request gives no id and no change. Otherwise the key (stripped name, year, month) holds the hours. An existing record keeps its id; a new one gets the next id. Every other record is unchanged. |
| Overtime.SyncOver | app.py:1654-1675 | The sync as a fold of one upsert per counted employee, returning the table and the ok and fail tallies. Its meaning is carried by SyncOverTally, SyncOverWrites and SyncIdempotent. |
| Overtime.SyncOverTally | app.py:1654-1675 | Every counted employee is tallied once: ok + fail equals the number synced, and fail equals the number rejected. |
| Overtime.SyncOverWrites | app.py:1654-1675 | After a sync, every counted employee's record holds that employee's count. |
| Overtime.SyncIdempotent | app.py:1654-1675 | Syncing the same counts again leaves the table as the first sync left it. |
| Overtime.SyncTallyOfRoster | app.py:1654-1675 | For a roster, successes plus failures equal the number of distinct employees counted. |
| Overtime.OvertimeCountTable.Sync | app.py:1654-1675 | The table ends as the functional sync over the roster counts leaves it. ok + fail is the number of distinct employees. |
| Overtime.WeekdayOt | app.py:1505-1698 | An empty name or a non-positive rate gives 0 hours and 0 pay, and so does a failed count query. Otherwise the hours are the recorded hours (0 without a record) and the pay is hours × rate. |
| Overtime.UpsertThenPay | app.py:1546-1590 | After an upsert, the pay computation reads back exactly the hours written. |
| Cashout.EffectiveHoursPerDay | app.py:2549-2554 | A non-positive hours-per-day falls back to 8. Otherwise it is kept. |
| Cashout.CapOf | app.py:2563-2564 | The cap applied is the configured cap when positive, else 0. |
| Cashout.CalcCashout | app.py:2547-2571 | The days cashed out are min(raw days, cap), where raw days are the whole or 2-decimal remaining days and the cap is that of CapOf. The amount is days × amount per day, and the remaining days are hours / effective hours-per-day. |
| Cashout.Round2 | app.py:2561 | Rounding to 2 decimals moves a value by at most 0.005. |
| Cashout.RoundedDays | app.py:2560-2564 | Without whole days, the days are the cap or within 0.005 of the remaining days. |
| Cashout.WholeDaysBounds | app.py:2558-2564 | With whole days and a non-negative balance, 0 ≤ days = min(truncated remaining days, cap) ≤ remaining days. |
| Cashout.FallbackHoursPerDay | app.py:2553-2554 | A non-positive hours-per-day computes as 8. |
| Cashout.CashoutExample | app.py:2547-2571 | 37 h at 8 h/day, whole days, cap 5 and 1000/day give 4.625 remaining days, 4 days and 4000. |
| Cashout.CapAboveWholeDays | app.py:2558-2564 | A cap of 4.5 above the 4 whole days leaves the 4 whole days. |
| Vacation.FirstPresentAt | app.py:2712 | The first candidate found among the options is chosen. |
| Vacation.ApprovedStatusChoice | app.py:2711-2712 | The label is an option when any candidate is one. With none present it falls back to 通過. |
| Vacation.MatchingMatch | app.py:2715-2725 | The query returns exactly the requests of that employee, of kind 特休 and with the approved status. |
| Vacation.OtherYearIgnored | app.py:2728-2734 | A request without a start date or starting in another year adds nothing. |
| Vacation.UsedSumNonNegative | app.py:2728-2736 | Non-negative hours sum to a non-negative total. |
| Vacation.UsedHoursAllCounted | app.py:2705-2738 | When at most one page of requests matches and the query succeeds, all of their hours in the year are summed. |
| Vacation.UsedHours | app.py:2703-2742 | The used hours: 0 for an empty name or a failed query, else the in-year hours of the first 100 matching requests. Its meaning is carried by MatchingMatch, OtherYearIgnored, UsedSumNonNegative and UsedHoursAllCounted. |
| Vacation.CalcUsedVacationHours | app.py:2705-2742 | The loop computes the specified used hours. An empty name or a failed query gives 0. |
| Vacation.EnsureRowIn | app.py:2820-2853 | Success happens exactly for a non-empty stripped name and a request that does not fail. A failure leaves the table as it was. Existing rows are kept, and the key then has a row. |
| Vacation.EnsureRowEffect | app.py:2836-2848 | An existing row leaves the table unchanged. Otherwise exactly one row is added, with total = remaining = the default and used = 0. |
| Vacation.EnsureRowIdempotent | app.py:2820-2853 | Ensuring twice is ensuring once. |
| Vacation.Remaining | app.py:2868 | remaining = max(0, total − used). |
| Vacation.SnapshotFound | app.py:2856-2877 | A clean non-empty name always gets a snapshot. Its total is the stored yearly total (0 for a row just created), its used hours are the given ones, and remaining = max(0, stored total − used). |
| Vacation.SnapshotPaddedName | app.py:2856-2866 | A name with surrounding whitespace, and no row under that spelling, gets no snapshot. |
| Vacation.CheckEnough | app.py:2880-2888 | A failed read fails validation. A request above the remaining hours is refused and reports both numbers. Otherwise it passes. |
| Vacation.ValidateExactly | app.py:2856-2888 | For a clean name, validation fails exactly when the request exceeds max(0, stored total − used). |
| Vacation.ValidateUsedQueryFails | app.py:2740-2742 | When the used-hours query fails, used reads as 0, so a clean name's request passes exactly when it is at most max(0, stored total). |
| Vacation.ValidateReadFails | app.py:2851-2866 | When the row cannot be ensured or the summary read fails, validation reports a read failure. |
| Vacation.SnapshotIn | app.py:2856-2877 | The table afterwards is the one the row ensuring leaves. A snapshot carries the name, the year, the total and page id of the ensured row read under the name as given, the used hours, and remaining = max(0, total − used). For a row that existed before, the total is its stored total. A failure to ensure the row or to read the summary gives no snapshot. |
| Lunch.MonthRange | app.py:3884-3890 | The range runs from the first of the month to the first of the next month, across the December boundary. It exists exactly for the months Python's `date` accepts. |
| Lunch.MonthRangeDays | app.py:3884-3890 | A date is in the range exactly when it is in that year and month. |
| Lunch.SortDatesPermutes | app.py:3914 | Sorting keeps every eligible date with its multiplicity. |
| Lunch.WorkingDaysForLunch | app.py:3901-3920 | The loop's list is the sorted eligible days kept on Monday–Saturday inside the month, and the count is its length. |
| Lunch.LunchDays | app.py:3901-3920 | The working days of the month: the sorted eligible days kept on Monday–Saturday inside the month. Its meaning is carried by LunchDaysOrdered and LunchDaysMultiplicity. |
| Lunch.LunchDaysOrdered | app.py:3914-3918 | The working days come out in date order. |
| Lunch.LunchDaysMultiplicity | app.py:3799-3920 | With a successful attendance query, each date counts as often as it has eligible attendance records, if it is a Monday–Saturday of the month. Otherwise it counts 0. |
| Lunch.SortNewest | app.py:3994 | The orders come out newest first by date, undated orders last. |
| Lunch.SortNewestPermutes | app.py:3994 | Sorting keeps every order with its multiplicity. |
| Lunch.SortNewestSpent | app.py:3994-4044 | Sorting does not change the amount spent. |
| Lunch.OrdersReadNewest | app.py:3963-4036 | The orders read are matching orders, min(matching, 100) of them, and no unread matching order is newer than any order read. |
| Lunch.OrdersReadFew | app.py:3963-4044 | With at most 100 matching orders, the amount spent is the sum over all of them. |
| Lunch.SettlementDiff | app.py:4038-4046 | The settlement difference, entitlement − spent. Its meaning is carried by CalcMonthLunchSettlement, OrdersReadNewest, OrdersReadFew and FailedReadsSettlement. |
| Lunch.CalcMonthLunchSettlement | app.py:4038-4055 | entitlement = days × 90, spent = the sum of the orders read (the newest 100, or none when the order query fails), and diff = entitlement − spent. |
| Lunch.FailedReadsSettlement | app.py:3880-4044 | A failed attendance query gives diff = −spent. A failed order query gives diff = the whole entitlement. |
| Lunch.EmptyNameSettlement | app.py:3963-3982 | An empty name earns no days, yet the order query is not filtered by employee. |
| Payroll.NetComputed | app.py:3189-3220 | With no totals supplied, net = sum of additions − sum of deductions. |
| Payroll.RaiseAddition | app.py:3189-3220 | With computed totals, raising an addition by δ raises gross and net by δ. |
| Payroll.RaiseDeduction | app.py:3189-3220 | With computed totals, raising a deduction by δ raises the deduction total by δ and lowers net by δ. |
| Payroll.SuppliedTotalsKept | app.py:3143-3159 | Supplied totals are written as given. |
| Payroll.SalaryPropsInSchema | app.py:3183-3283 | Only properties the table has are written. |
| Payroll.AddPropsAt | app.py:3239-3257 | Each addition the table has is written as its amount. |
| Payroll.DeductPropsAt | app.py:3263-3275 | Each deduction the table has is written as its amount. |
| Payroll.Existing | app.py:3180 | The page updated matches the key. A failed lookup gives none. |
| Payroll.WriteRecord | app.py:3287-3291 | Every page other than the existing one is unchanged. The existing page keeps its id and gets the written properties merged over its own. Without one, a page with the next id and the written properties is appended and the next id advances. |
| Payroll.UpsertSalaryIn | app.py:3071-3300 | It succeeds exactly for a non-empty stripped name, a schema with 員工姓名 and a write that does not fail. A failure changes nothing. On success every page other than the existing one is unchanged, the existing page keeps its id and gets the written properties merged in, and without one a page with the next id and those properties is appended. |
| Payroll.UpsertTwiceOneRecord | app.py:3179-3292 | After a successful upsert, a second one for the same key whose lookup succeeds updates the record instead of adding a page. |
| Payroll.FindPageAppend | app.py:2930-2945 | Appending a page keeps the first match where it was. |
| Payroll.UpsertLookupFailsDuplicates | app.py:3065-3292 | A second upsert of the same key whose lookup fails adds a page, and the lookup still finds the first page. |
| Payroll.SalaryTable.Upsert | app.py:3071-3300 | The table ends as the functional upsert leaves it, and the result is its success flag. |
| Payroll.GetSalaryRecord | app.py:2924-3067 | There is a record exactly for a non-empty stripped name, a query that does not fail and a matching page. It has every addition, deduction and total key. |
| Payroll.UpsertThenRead | app.py:2924-3300 | After a successful upsert, reading the key gives the stripped name, year and month, the stripped note and the net pay. It also gives every written addition and deduction. |
| Payroll.SuggestOnlyWithoutRecord | app.py:5774-5800 | A stored amount is used whenever a record exists. The suggestion is used only without one. |
| Payroll.MealAllowance | app.py:5770-5782 | A record's stored meal allowance is kept. Without a record, the allowance is the month's lunch settlement difference. |
| Payroll.WeekdayOvertime | app.py:5784-5800 | The weekday overtime suggested. Its meaning is carried by WeekdayOvertimeChoice. |
| Payroll.WeekdayOvertimeChoice | app.py:5788-5800 | A record keeps its weekday-overtime amount. Without a record, the amount is the recorded overtime hours × rate, which is 0 when the count query fails. |
| Payroll.Payable | app.py:2894-2910 | The payable amount: base + overtime + bonus − leave deduction − advances and other + lunch, plus the cash-out when included. Its meaning is carried by PayableParts. |
| Payroll.PayableParts | app.py:2894-2910 | Included, the cash-out adds exactly its amount; excluded, it counts as 0. Raising base, overtime, bonus or lunch by δ raises the payable amount by δ. Raising the leave deduction or advances and other by δ lowers it by δ. |

## Left out

- The Streamlit user interface, login and password hashing, GPS check-in, exports, announcements,
  caching (`st.cache_data`) and `log_action` are not part of this model.
- The Notion HTTP transport is left out. Databases are values, queries are filters over them, and
  a failing request of a modelled query or write is an input flag, as listed at the top. Exceptions
  other than a failing request are not modelled.
- Pagination and paging caps are not modelled exactly:
  - Leave requests and lunch orders are read as a single page of at most 100 rows (`Take(…, 100)`).
    Queries with `page_size=1` or `5` are modelled as taking the first match. The order of Notion
    results is taken as storage order.
  - Lunch orders are sorted newest first by date before the first 100 are taken. Orders with the
    same date keep storage order (a stable sort), and undated orders come last; Notion's own
    tie-breaking is not modelled.
- Python floats are modelled as exact reals; binary rounding error is not modelled.
  - Cashout.Round2: models `round(x, 2)` as exact round-half-even to two decimals, not rounding of
    the binary double.
  - Payroll.UpsertSalaryIn: the `float(x or 0.0)` coercion and `int(y)` truncation of inputs are
    not modelled; amounts, year and month arrive as numbers.
- Text is approximated:
  - `str.isspace` is an explicit list of Python whitespace code points.
  - `str.lower` covers ASCII and full-width Latin letters only.
  - `str.isdigit` covers ASCII and full-width digits, so other Unicode digits such as superscripts
    are not modelled.
- Overtime.UpsertCount: the title-property lookup (`resolve_title_prop`) and the fuzzy resolution
  of the count table's keys are not modelled, and the key is the fixed (name, year, month). The
  written hours are `float(hours or 0.0)` and arrive as numbers.
- Overtime.WeekdayOt: the overtime rule is an input (the hourly rate); `get_overtime_rule`'s query
  and its failure are not modelled. The shift-hours field of the rule is not used by the core.
- Vacation.SnapshotIn: `list_vacation_summary` is modelled as reading the row of the exact name and
  year, whose total reads as 0 when empty.
- Lunch.EligibleDays: the type-dependent filters on employee and status (title, rich text, select,
  status, multi-select) are modelled as equality on stored strings.
- Payroll: which key properties are fatal when missing follows the code, not the documentation.
  Only a missing 員工姓名 aborts the upsert. A missing 薪資年份 or 薪資月份 is silently skipped, and
  then the written record cannot be found again by year and month. UpsertThenRead and
  UpsertTwiceOneRecord therefore require those two properties.
- Payroll.GetSalaryRecord: the pay date (發薪月份) and the created and last-edited timestamps are not
  read.
- `sanitize_announce_text` and `strip_meta_columns` (announcement text and table display helpers)
  are not part of this model.
