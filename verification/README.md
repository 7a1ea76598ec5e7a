# Company fund management — a Dafny model of its bookkeeping logic

The application keeps a company's social fund. Employees pay a monthly
contribution, and the fund pays for shared expenses. A bill-sharing screen
splits selected expenses among participants, who pay through the fund or
directly. All of that logic lives inside React pages and modal components,
between reads and writes of the database. This project lifts each piece into
pure Dafny functions. "Today" or "now", the employee list and the payment
list are explicit parameters. Contracts and lemmas state what each piece
promises.

Modules, one per page or component, plus shared foundations:

| module | file | models |
|---|---|---|
| `Base` | base.dfy | `Option`, sums, counts, filters and duplicate-free sequences used throughout |
| `Text` | text.dfy | trimming, ASCII lower-casing, substring search, the digit-only sanitiser, `parseInt`, decimal printing |
| `StringOrder` | order.dfy | the default order of `.sort()` on an array of strings, by code point |
| `Calendar` | calendar.dfy | proleptic Gregorian dates, day numbers from 1970-01-01, month indices, `YYYY-MM` keys |
| `Dues` | dues.dfy | payments, the latest payment, and the 45-day recency rule shared by the status mappings |
| `BillSharing` | bill_sharing.dfy | the bill-sharing page: selection toggles, the split, the created rows, the status toggle |
| `EmployeeForm` | employee_form.dfy | the employee modal: months between dates, contribution, validation, submission |
| `PaymentForm` | payment_form.dfy | the payment modal: months-covered toggle, month options, amount, validation, suggestion |
| `FundCollection` | fund_collection.dfy | the fund-collection page: status per employee, totals, counts, trend, method split, filters |
| `Dashboard` | dashboard.dfy | the home page: totals, balance, the 12-month chart, categories, recent activities |
| `EmployeeList` | employee_list.dfy | the employees page: months paid, status, filter, summary, insert/update payloads |
| `ExpenseForm` | expense_form.dfy | the expense modal: open/edit population, amount sanitiser, receipt check, validation |
| `ExpenseLedger` | expense_ledger.dfy | the expenses page: row defaults, gross/net totals, status badge, saved payload |

Modelling conventions:
- A JavaScript `Set` of ids is a duplicate-free sequence in insertion order. Deleting removes the id in place, and adding appends it.
- `null`, a missing column and `NaN` are `None`.
- A date is a valid `(year, month, day)`, and `new Date(null)` is day 0 (the epoch).
- "Now" is a date plus milliseconds into the day.
- All times are UTC.
- Amounts in đồng are integers. The bill split divides with exact `real`s.

How the bill is split (`src/pages/BillSharingPage.jsx:254-294`):
- With more than one celebrated person ("honoree"), the honorees share the whole bill and everyone else owes nothing (`src/pages/BillSharingPage.jsx:254-272`).
- With at most one honoree, the other participants split it evenly.
- "Create" writes a participant row for every line of the breakdown, whatever the payment method.
- The home page's status mapping is the fund page's mapping (`src/pages/HomePage.jsx:224-269` repeats `src/pages/FundCollectionPage.jsx:145-206`). The model states it once, as `FundCollection.Classify`, and the home page's counts are `FundCollection.Summarize`.

## Model

| member | source | states |
|---|---|---|
| BillSharing.Normalize | src/pages/BillSharingPage.jsx:79-83 | a stored fund flag that is not the boolean `false` counts as taking part in the fund; every other field is kept |
| BillSharing.NormalizeRoundTrip | src/pages/BillSharingPage.jsx:79-83 | a member stored with its boolean flag normalises back to itself; a stored boolean flag survives the round trip and any other stored flag comes back as `true` |
| BillSharing.DefaultParticipants | src/pages/BillSharingPage.jsx:85-88 | the initial participants are exactly the active employees without a leave date, each once, in employee-list order |
| BillSharing.InitialSelection | src/pages/BillSharingPage.jsx:85-88 | the loaded selection has no expense and no honoree, its participants are the default ones, and every honoree is a participant |
| BillSharing.ToggleExpense | src/pages/BillSharingPage.jsx:109-117 | the toggled expense changes membership; no other id and neither other set changes |
| BillSharing.ExpenseToggleInvolution | src/pages/BillSharingPage.jsx:109-117 | toggling an expense twice restores the selected set, and the same sequence when it was not selected |
| BillSharing.ToggleParticipant | src/pages/BillSharingPage.jsx:119-131 | the toggled employee changes membership; deselecting also removes their honoree mark; honorees stay among the participants |
| BillSharing.ToggleHonoree | src/pages/BillSharingPage.jsx:133-144 | toggling a non-participant changes nothing; otherwise only that honoree mark flips; honorees stay among the participants |
| BillSharing.FindAmount | src/pages/BillSharingPage.jsx:231-235 | an amount is found iff some expense has the id, and it is the amount of the first expense with that id |
| BillSharing.TotalSelected | src/pages/BillSharingPage.jsx:231-235 | the total of the selected expenses is zero when no selected id has an expense, and never negative when no expense amount is |
| BillSharing.ToggleExpenseTotal | src/pages/BillSharingPage.jsx:231-235 | ticking an expense in adds its amount to the total (0 for an unknown id); ticking it out subtracts it |
| BillSharing.Payers | src/pages/BillSharingPage.jsx:273-274 | the payers are exactly the participants who are not honorees, without duplicates |
| BillSharing.MethodOf | src/pages/BillSharingPage.jsx:263-268 | an employee pays through the fund iff their fund flag is set |
| BillSharing.Breakdown | src/pages/BillSharingPage.jsx:254-294 | line i is the i-th participating employee in employee-list order, owing their share and paying by their own method; one line per such employee and no other lines |
| BillSharing.Calculate | src/pages/BillSharingPage.jsx:229-300 | the total is the selected sum; with a zero total or nobody selected everything is zero and the breakdown empty; otherwise the breakdown is the participants' lines and the amount per person is the total over the payers (kept as shown with several honorees); the fund total is the sum owed by fund payers, the direct total that owed by the others |
| BillSharing.FundPlusDirect | src/pages/BillSharingPage.jsx:281-289 | the fund and direct sums of a breakdown add up to its total |
| BillSharing.FundSplit | src/pages/BillSharingPage.jsx:263-268 | an owed amount counts toward the fund total exactly when its employee takes part in the fund, and toward the direct total otherwise |
| BillSharing.EvenSplit | src/pages/BillSharingPage.jsx:273-292 | with at most one honoree and some payer, each payer owes total/payers and an honoree nothing; if employee ids are distinct and all participants are listed employees the shares add up to the total |
| BillSharing.NoPayers | src/pages/BillSharingPage.jsx:274-280 | with at most one honoree and no payer, everybody owes nothing and both totals are zero |
| BillSharing.HonoreesSplit | src/pages/BillSharingPage.jsx:254-272 | with several honorees each owes total/honorees and everyone else nothing; if honorees are participants, employee ids distinct and all participants listed employees, the shares add up to the total |
| BillSharing.CountInCovered | src/pages/BillSharingPage.jsx:254-294 | when employee ids are distinct and every id of a duplicate-free list belongs to an employee, exactly that many employees are in the list |
| BillSharing.BreakdownOnePerParticipant | src/pages/BillSharingPage.jsx:254-294 | when employee ids are distinct and every participant is a listed employee, the breakdown has exactly one line per participant |
| BillSharing.DefaultBreakdown | src/pages/BillSharingPage.jsx:85-88 | before any box is ticked every default participant has a line, and each owes an equal share of the total |
| BillSharing.BuildLinks | src/pages/BillSharingPage.jsx:162-166 | one link per selected expense, in order, with the expense's amount; none if some id has no expense |
| BillSharing.BuildParticipants | src/pages/BillSharingPage.jsx:174-181 | one row per breakdown line; status is paid iff nothing is owed; the birthday mark iff the id is an honoree |
| BillSharing.CreateSharing | src/pages/BillSharingPage.jsx:146-188 | the sharing records today's date and the total; it succeeds iff every selected id has an expense, and then writes one link per selected expense with its amount and one participant row per breakdown line |
| BillSharing.AfterCreate | src/pages/BillSharingPage.jsx:190-192 | after a successful create all three selections are empty; after a failure the selection is kept |
| BillSharing.CreatedTotalMatchesLinks | src/pages/BillSharingPage.jsx:146-166 | a created sharing's total equals the sum of the amounts recorded in its links |
| BillSharing.Flip | src/pages/BillSharingPage.jsx:203 | the new payment status always differs from the current one |
| BillSharing.SetStatus | src/pages/BillSharingPage.jsx:206-212 | only the targeted participant's status changes, in every sharing, and nothing else |
| BillSharing.TogglePaymentStatus | src/pages/BillSharingPage.jsx:202-226 | the update flips the status and carries a payment date iff the new status is paid; on success the shown history has that participant flipped, on failure it is the prior one |
| BillSharing.ToggleStatusTwice | src/pages/BillSharingPage.jsx:202-226 | two successful toggles of the same participant restore every status |
| EmployeeForm.MonthsBetween | src/components/EmployeeModal.jsx:57-69 | the count is the difference of month indices plus one |
| EmployeeForm.MonthsIgnoreDay | src/components/EmployeeModal.jsx:61-63 | the count does not depend on the day of month |
| EmployeeForm.MonthsChain | src/components/EmployeeModal.jsx:57-69 | counts over consecutive ranges add up, with the shared month counted once |
| EmployeeForm.MonthsPositive | src/components/EmployeeModal.jsx:57-69 | for a start no later than the end the count is at least one, and exactly one iff both fall in the same month |
| EmployeeForm.Contribution | src/components/EmployeeModal.jsx:72-78 | with both dates and a non-zero amount, the month count (or 0 when it is not positive) times the amount; zero without both dates or an amount; never negative for a positive amount |
| EmployeeForm.ContributionPerMonth | src/components/EmployeeModal.jsx:72-78 | moving the leave date one month later adds exactly one monthly amount |
| EmployeeForm.MatchEmail | src/components/EmployeeModal.jsx:89 | the scan accepts exactly the texts of the shape non-space, `@`, non-space, `.`, non-space |
| EmployeeForm.Validate | src/components/EmployeeModal.jsx:80-119 | each field error is raised exactly under its condition; the leave-date error iff both dates are given and the leave date is not after the join date |
| EmployeeForm.ValidMeans | src/components/EmployeeModal.jsx:80-119 | the form is valid iff every field condition holds |
| EmployeeForm.ValidLeaverOwes | src/components/EmployeeModal.jsx:109-115 | a valid form with a leave date counts at least one month and owes at least the monthly amount |
| EmployeeForm.Submit | src/components/EmployeeModal.jsx:121-139 | the form is handed on exactly when every check passes; then a leave date makes the status inactive with the contribution as total paid, and without one the form passes unchanged |
| PaymentForm.Blank | src/components/PaymentModal.jsx:17-29 | an opened form is empty, dated today, paid in cash |
| PaymentForm.AmountChange | src/components/PaymentModal.jsx:37-40 | the amount is the digits typed, every one of them, in order, and nothing else changes |
| PaymentForm.ToggleMonth | src/components/PaymentModal.jsx:59-66 | the month changes membership and no other month does; removal keeps order; a sorted duplicate-free list stays so |
| PaymentForm.ToggleMonthTwice | src/components/PaymentModal.jsx:59-66 | toggling a month twice restores a sorted duplicate-free list |
| PaymentForm.ToggleMonthLength | src/components/PaymentModal.jsx:59-66 | a toggle removes or adds exactly one entry |
| PaymentForm.MonthOptions | src/components/PaymentModal.jsx:42-55 | exactly seven keys, for the months three before to three after the current one, across year ends |
| PaymentForm.CurrentMonthInMiddle | src/components/PaymentModal.jsx:42-55 | the middle option is the current month's key |
| PaymentForm.OptionsIncrease | src/components/PaymentModal.jsx:49 | for four-digit years the options are in increasing string order, which is chronological order |
| PaymentForm.Validate | src/components/PaymentModal.jsx:68-89 | errors iff no employee, an empty or non-positive amount, no date, or no covered month |
| PaymentForm.SanitisedAmountCheck | src/components/PaymentModal.jsx:37-40 | a sanitised amount is refused iff it has no digit or its digits read as zero |
| PaymentForm.Submit | src/components/PaymentModal.jsx:91-106 | a submission exists iff there is no error, and it carries the form with the amount read as an integer |
| PaymentForm.SubmitSanitised | src/components/PaymentModal.jsx:101-104 | a submitted sanitised amount is the positive value of the digits typed |
| PaymentForm.MonthlyRate | src/components/PaymentModal.jsx:116-117 | the first employee with the id gives the rate: their monthly amount when set and non-zero, otherwise 100000; 100000 when no employee has the id |
| PaymentForm.SuggestedAmount | src/components/PaymentModal.jsx:116-117 | each covered month adds one monthly rate; without a matching employee it is 100000 per month |
| PaymentForm.SuggestionPerMonth | src/components/PaymentModal.jsx:116-117 | toggling a covered month changes the suggested amount by exactly one monthly rate |
| Dues.PaymentsOf | src/pages/FundCollectionPage.jsx:159 | exactly the employee's own payments, in order |
| Dues.LatestPayment | src/pages/FundCollectionPage.jsx:162-163 | none iff there are no payments; otherwise one of them, dated no earlier than any other |
| Dues.Recency | src/pages/FundCollectionPage.jsx:171-197 | no payment is pending; a payment dated after today is paid; one more than 45 days old is overdue; otherwise pending |
| Dues.RecencyMonotone | src/pages/FundCollectionPage.jsx:171-197 | a later latest payment never gives a worse status |
| FundCollection.Classify | src/pages/FundCollectionPage.jsx:145-206 | a leaver is completed with their leave date; otherwise paid iff an own payment covers this month or is dated after today; overdue iff all own payments are older than 45 days and none covers this month; the date shown is a latest payment's, and none only when there is no own payment or a latest one is undated |
| FundCollection.NewPaymentNeverWorsens | src/pages/FundCollectionPage.jsx:157-197 | for an employee with a payment, recording another never lowers their status |
| FundCollection.Rows | src/pages/FundCollectionPage.jsx:145-206 | one classified row per employee, in order |
| FundCollection.CollectedOnNewPayment | src/pages/FundCollectionPage.jsx:284-300 | a new payment adds its amount to the total unless its employee has left |
| FundCollection.TotalCollected | src/pages/FundCollectionPage.jsx:284-300 | with no leavers the total is the sum of all payments |
| FundCollection.CurrentMonthIsBucket | src/pages/FundCollectionPage.jsx:308-311 | this month's collection is the sum of the payments dated in the current month index |
| FundCollection.CurrentMonthCollected | src/pages/FundCollectionPage.jsx:308-311 | this month's collection is the bucket of payments in the current month index |
| FundCollection.Summarize | src/pages/FundCollectionPage.jsx:284-324 | the active count is the employees without a leave date; paid, pending and overdue count those of them with that status, and add up to the active count; completed counts the leavers; expected, outstanding, rate, average and totals are as defined |
| FundCollection.StatusCounts | src/pages/FundCollectionPage.jsx:314-318 | counting statuses among the active rows is counting the staying employees classified with each status |
| FundCollection.Percent | src/pages/FundCollectionPage.jsx:322 | zero for no whole; otherwise the ratio times 100, between 0 and 100 for a part no larger than the whole |
| FundCollection.Average | src/pages/FundCollectionPage.jsx:323 | zero for no payments; otherwise the total divided by their number |
| FundCollection.CountsAddUp | src/pages/FundCollectionPage.jsx:314-318 | the counts of the rows are a partition: completed ones are the leavers and every other row is paid, pending or overdue |
| FundCollection.CountsMatch | src/pages/FundCollectionPage.jsx:314-318 | the completed rows are exactly the leavers, counted |
| FundCollection.SetMonthBack | src/pages/FundCollectionPage.jsx:328-329 | stepping the month back from a day after the 28th can overflow into the next month; from the 28th or earlier it cannot |
| FundCollection.TrendAsWritten | src/pages/FundCollectionPage.jsx:326-340 | six points, each for the month reached by the day-overflowing step back |
| FundCollection.TrendAsWrittenSkipsMonths | src/pages/FundCollectionPage.jsx:326-340 | on 31 October 2025 the trend shows October and July twice and no June or September |
| FundCollection.Trend | src/pages/FundCollectionPage.jsx:326-340 | the six calendar months up to the current one, oldest first, each with its collection; the last is this month's collection |
| FundCollection.TrendMonths | src/pages/FundCollectionPage.jsx:326-340 | the trend's months are consecutive, increasing and end at the current month |
| FundCollection.TrendAsWrittenAgreesEarlyInMonth | src/pages/FundCollectionPage.jsx:326-340 | up to the 28th the page's trend is the intended one |
| FundCollection.TrendTotal | src/pages/FundCollectionPage.jsx:326-340 | the trend adds up to all payments dated in its six months |
| FundCollection.MethodStatsCoverAll | src/pages/FundCollectionPage.jsx:343-347 | when every payment names one of the three methods, the three figures add up to all payments |
| FundCollection.MethodStatsOf | src/pages/FundCollectionPage.jsx:343-347 | all three figures are zero when no payment names one of the methods; with non-negative amounts they add up to at most all payments |
| FundCollection.MethodStatsOnNewPayment | src/pages/FundCollectionPage.jsx:343-347 | a new payment adds its amount to exactly the figure of the method it names, and to none when it names another |
| FundCollection.FilterEmployees | src/pages/FundCollectionPage.jsx:349-352 | the employees listed are exactly those whose name or department contains the search, in order |
| FundCollection.EmptySearchListsAll | src/pages/FundCollectionPage.jsx:349-352 | an empty search lists every employee |
| FundCollection.FilterPayments | src/pages/FundCollectionPage.jsx:355-431 | the payments listed are exactly the non-missing ones meeting the search, method, employee, date and month filters, in order |
| FundCollection.NoFiltersKeepAll | src/pages/FundCollectionPage.jsx:355-431 | with every filter at its default, every non-missing payment is listed |
| FundCollection.MonthFilterSelects | src/pages/FundCollectionPage.jsx:398-409 | month `Tn` lists exactly the payments dated in month n, or undated |
| FundCollection.MonthKeyMatches | src/pages/FundCollectionPage.jsx:398-404 | the key `Tn`, with its `T` stripped and read as a number, matches a payment exactly when it is dated in month n or has no date |
| FundCollection.WeekRange | src/pages/FundCollectionPage.jsx:376-395 | the week range keeps the last six days and later, and the seventh day back only at midnight |
| FundCollection.MonthRange | src/pages/FundCollectionPage.jsx:376-395 | the month range keeps the last 29 days and later, and the 30th day back only at midnight |
| Dashboard.NetSpentIsLedgerNet | src/pages/HomePage.jsx:199 | summing each row's net amount as the home page reads it gives the expenses page's net total of the normalised rows |
| Dashboard.NetSpent | src/pages/HomePage.jsx:199 | the home page's net spent is the expenses page's net total |
| Dashboard.Collected | src/pages/HomePage.jsx:178-180 | the collected total is the leavers' recorded totals plus the staying employees', never negative when no recorded total is |
| Dashboard.ComputeStats | src/pages/HomePage.jsx:178-296 | balance is collected minus net spent; each count is the fund page's, so paid, pending and overdue count the staying employees with that status and completed the leavers; expected is active times 100000; collection rate and expense rate are the percentages, zero without a base |
| Dashboard.CollectedAgreesWithFundPage | src/pages/HomePage.jsx:178-182 | when each staying employee's recorded total is what they paid and each payment belongs to a listed employee, the home page's collected total equals the fund page's |
| Dashboard.MonthlyChart | src/pages/HomePage.jsx:308-377 | twelve points, in month order, each summing the payments and the net expenses dated in that month of this year |
| Dashboard.ChartLabels | src/pages/HomePage.jsx:308-377 | point i is labelled `T` followed by i+1, so the labels read back as months 1 to 12 |
| Dashboard.ChartCollectedBuckets | src/pages/HomePage.jsx:308-377 | each point's collection is the bucket of payments in its month index |
| Dashboard.ChartSpentBuckets | src/pages/HomePage.jsx:308-377 | each point's spending is the bucket of expenses in its month index |
| Dashboard.ChartYearCollected | src/pages/HomePage.jsx:308-377 | the twelve collections add up to the payments dated in this year |
| Dashboard.ChartYearSpent | src/pages/HomePage.jsx:308-377 | the twelve spendings add up to the net expenses dated in this year |
| Dashboard.AddTo | src/pages/HomePage.jsx:386 | adding to a category adds to its entry or appends a new one; the keys stay distinct and the sum grows by the amount |
| Dashboard.Categories | src/pages/HomePage.jsx:382-408 | one entry per category that occurs (a missing one as `other`), each the net total of its expenses, all adding up to the net spent |
| Dashboard.CategoryTotal | src/pages/HomePage.jsx:382-408 | a category's entry is the net total of the expenses in that category |
| Dashboard.PaymentActivities | src/pages/HomePage.jsx:419-435 | each activity comes from a present recent payment, labelled with its employee's name or `Unknown Employee` |
| Dashboard.ExpenseActivities | src/pages/HomePage.jsx:438-453 | each activity comes from a present expense, with its description or `No description` |
| Dashboard.RecentActivities | src/pages/HomePage.jsx:416-453 | the activities of the present entries among the first three recent payments, in order, then those of the present entries among the first two expenses, in order, and nothing else |
| Dashboard.RecentInOrder | src/pages/HomePage.jsx:416-453 | with no `null` entries, the list is the first three payments then the first two expenses, each in order |
| Dashboard.RecentSkipsNull | src/pages/HomePage.jsx:416-435 | a `null` among the first three payments is dropped and the others keep their order |
| EmployeeList.MonthsPaid | src/pages/EmployeesPage.jsx:114 | none for a zero monthly amount; otherwise the quotient rounded half up, bracketed within half a month |
| EmployeeList.MonthsPaidExact | src/pages/EmployeesPage.jsx:114 | an exact multiple of the monthly amount counts exactly that many months |
| EmployeeList.CurrentMonthIsRecent | src/pages/EmployeesPage.jsx:117-121 | a payment in the current month is at most 30 days before today, or later |
| EmployeeList.ClassifyListed | src/pages/EmployeesPage.jsx:109-161 | inactive iff the stored status is inactive; otherwise paid iff a payment falls in this month or after today; overdue iff all payments are older than 45 days |
| EmployeeList.NewPaymentNeverWorsens | src/pages/EmployeesPage.jsx:117-152 | for an employee with a payment, recording another never lowers their status |
| EmployeeList.Rows | src/pages/EmployeesPage.jsx:109-161 | one row per employee, in order |
| EmployeeList.FilterRows | src/pages/EmployeesPage.jsx:392-398 | the rows shown are exactly those matching the search in name, email or department and the status filter, in order |
| EmployeeList.NoFilterListsAll | src/pages/EmployeesPage.jsx:392-398 | no search and status `all` list every row |
| EmployeeList.Summarize | src/pages/EmployeesPage.jsx:400-403 | the active count, the total paid and the paid and overdue counts; they never exceed the employee count |
| EmployeeList.RowsSummarize | src/pages/EmployeesPage.jsx:400-403 | summarising the computed rows counts as the status predicates say |
| EmployeeList.Save | src/pages/EmployeesPage.jsx:253-306 | an update by id or an insert; the leave date is the form's; an insert's total paid defaults to 0; an update carries it only when defined |
| EmployeeList.SaveSettlesLeavers | src/pages/EmployeesPage.jsx:253-306 | an invalid form is never saved; a valid leaver is saved inactive with their contribution, at least one monthly amount and so above 0, as total paid; a valid non-leaver keeps their status, and an update leaves total paid alone while an insert starts it at 0 |
| EmployeeList.SavedLeaverListedInactive | src/pages/EmployeesPage.jsx:128-130 | a leaver that passed the form's checks, saved and read back, is listed as inactive with a total paid of at least one monthly amount |
| ExpenseForm.Blank | src/components/ExpenseModal.jsx:36-46 | a reset form is empty, in category `events`, dated today |
| ExpenseForm.Populate | src/components/ExpenseModal.jsx:26-35 | the amount prints back to the stored amount, the category is the stored one or `events`, description and notes are the stored ones or empty, the date is cut at `T` or is today, and no file |
| ExpenseForm.Open | src/components/ExpenseModal.jsx:24-49 | a closed modal changes nothing; an open one is populated when editing, reset otherwise, and its errors cleared |
| ExpenseForm.AmountChange | src/components/ExpenseModal.jsx:57-60 | the amount is the digits typed, every one of them, in order, and nothing else changes |
| ExpenseForm.AmountChangeIdempotent | src/components/ExpenseModal.jsx:57-60 | sanitising a sanitised amount changes nothing |
| ExpenseForm.FileChange | src/components/ExpenseModal.jsx:62-81 | a file is accepted iff it is at most 5 MB and an allowed type; a refused file leaves the form as it was |
| ExpenseForm.FileChoiceOverrides | src/components/ExpenseModal.jsx:62-81 | an accepted file replaces any earlier choice, refused or not, and choosing the same file twice is choosing it once |
| ExpenseForm.Validate | src/components/ExpenseModal.jsx:83-100 | errors iff the amount is empty or not positive, the description blank, or the date missing |
| ExpenseForm.Submit | src/components/ExpenseModal.jsx:102-117 | a submission exists iff there is no error, with the amount read as an integer |
| ExpenseForm.SubmitSanitised | src/components/ExpenseModal.jsx:57-60 | a submitted sanitised amount is the positive value of the digits typed |
| ExpenseForm.EditRoundTrip | src/components/ExpenseModal.jsx:26-35 | editing a stored positive amount and submitting unchanged gives back that amount |
| ExpenseLedger.Normalize | src/pages/ExpensesPage.jsx:26-32 | missing amounts read as 0, a missing net amount as the amount, a missing status as `not_shared`; all else is kept |
| ExpenseLedger.NormalizeIdempotent | src/pages/ExpensesPage.jsx:26-32 | normalising twice is normalising once, and a normal row is left as it is |
| ExpenseLedger.GrossTotal | src/pages/ExpensesPage.jsx:121 | never negative when no amount is |
| ExpenseLedger.NetTotal | src/pages/ExpensesPage.jsx:122 | no more than the gross total when no net amount exceeds its amount |
| ExpenseLedger.TotalsOnNewExpense | src/pages/ExpensesPage.jsx:121-122 | a new expense adds its amount to the gross total and its net amount to the net total |
| ExpenseLedger.NetIsGrossWithoutNetAmounts | src/pages/ExpensesPage.jsx:121-122 | with no net amounts stored, the net total equals the gross total |
| ExpenseLedger.NetIsGrossLessReimbursed | src/pages/ExpensesPage.jsx:121-122 | when each net amount is the amount less the reimbursement, the net total is the gross total less all reimbursements |
| ExpenseLedger.BadgeStatus | src/pages/ExpensesPage.jsx:58-72 | a known status shows as itself, any other as `not_shared` |
| ExpenseLedger.BuildPayload | src/pages/ExpensesPage.jsx:79-91 | exactly five columns, empty notes as null, and a receipt URL only when one is given |
| ExpenseLedger.Save | src/pages/ExpensesPage.jsx:93-100 | an update of the edited id when editing, an insert otherwise, carrying the payload |
| ExpenseLedger.FormWritesPositiveAmount | src/pages/ExpensesPage.jsx:79-91 | a submitted form writes a positive amount when it reads as a number, and never a receipt URL |
| ExpenseLedger.EditUntouchedRoundTrip | src/pages/ExpensesPage.jsx:74-100 | opening a saved expense and saving it untouched writes the same columns again |
| Text.KeepDigits | src/components/PaymentModal.jsx:38 | the result holds only digits, is a subsequence of the input keeping every one of its digits, and leaves a digit string unchanged |
| Text.ParseInt | src/components/PaymentModal.jsx:75 | `NaN` exactly when no digit follows the optional whitespace and sign; a number's sign follows the minus sign |
| Text.KeepDigitsIdempotent | src/components/PaymentModal.jsx:38 | keeping the digits of a digit string changes nothing |
| Text.ParseIntIntToString | src/components/ExpenseModal.jsx:29 | reading back a printed integer gives that integer |
| Calendar.ShiftMonth | src/components/PaymentModal.jsx:48 | a month shifted by an offset lands on a valid month, exactly offset months away |
| Calendar.MonthKeyOrder | src/components/PaymentModal.jsx:49 | for four-digit years, string order of `YYYY-MM` keys is chronological order |
| Calendar.IsAfterIffLaterDay | src/pages/FundCollectionPage.jsx:192 | a date is after now iff its day number is after today's |
| StringOrder.Sort | src/components/PaymentModal.jsx:64 | `.sort()` yields a sorted permutation of its input |
| StringOrder.SortSorted | src/components/PaymentModal.jsx:64 | sorting an already sorted list changes nothing |
| StringOrder.SortedUnique | src/components/PaymentModal.jsx:64 | two sorted permutations of the same strings are equal |

## Left out

- Database reads, writes and realtime subscriptions, `alert`, `confirm` and page reloads: the model takes the rows as read and returns the rows to write. A failed status update is modelled by its revert. A failed insert of a sharing, its links or its participants, which also keeps the selection, is not modelled; the model's one failed create is an expense id with no expense behind it, where the page's `.find(...).amount` throws.
- Time zones and JavaScript `Date` parsing: dates are already-parsed calendar dates in UTC. `created_at` timestamps are treated as dates.
- Case-insensitive search lower-cases ASCII letters only. Unicode case mapping is not modelled. Names, e-mails and departments are taken to be present: a `null` in one of them, which the employee form never writes, makes `toLowerCase()` throw on the page.
- StringOrder.LexLess: compares characters by code point, while JavaScript compares UTF-16 code units; the two differ only on text holding a character above U+FFFF, such as an emoji, which sorts before U+E000–U+FFFF in JavaScript and after them here.
- Text.ParseInt: reads base 10 only; `parseInt` without a radix would read a `0x` prefix as hexadecimal, which no caller passes.
- IEEE-754 rounding: the bill split, `FundCollection.Percent` and `FundCollection.Average` use exact rationals, and `Math.round` is exact rounding half up on integers.
- `Intl.NumberFormat`, `toLocaleDateString`, labels, icons and colour tables.
- The order in which `Object.entries` lists categories whose name is an array index. The model keeps first-occurrence order.
- The badge's lookup of prototype keys such as `constructor`: only the four known statuses are recognised.
- Deleting an expense (src/pages/ExpensesPage.jsx:111-114): a bare database call.
- Filling the employee modal for editing (src/components/EmployeeModal.jsx:17-42): it is plain copying with defaults.
- Development-mode and mock-data branches, and the hard-coded fund participation list that the page overwrites.
- Login, sign-up, password reset, settings, the route guard and the stat card: they hold no bookkeeping logic.
- Finalising a sharing, reimbursement posting and rollback on delete: no source file implements them.
- EmployeeList.MonthsPaid: takes the total and the monthly amount as integers. A stored value that is not a number, which the page turns into `NaN`, is not modelled.
- Null rows in the home page's expense list (src/pages/HomePage.jsx:383): the model's category and chart inputs hold no missing rows.

## Findings

| source | as written | input that shows it | evidently intended | confidence | as-written member | corrected member |
|---|---|---|---|---|---|---|
| src/pages/FundCollectionPage.jsx:326-340 | each trend month is reached by calling `setMonth(getMonth() - i)` on today's date, so on the 29th-31st the step overflows into the following month | today 31 October 2025: the six points are May, July, July, August, October, October, and June and September are missing | the six calendar months ending with the current one | not executed | FundCollection.TrendAsWrittenSkipsMonths | FundCollection.Trend |
