# Credit analytics: a verified model

The service keeps users, credits, payments, monthly plans and a dictionary of names, accepts plan sheets, and
prints two performance reports and a list of one user's credits. This project models that logic in Dafny and
proves what it promises. `dafny verify dfyconfig.toml` checks everything.

| file | what it models |
|---|---|
| `Outcomes.dfy`, `Arithmetic.dfy`, `Folds.dfy`, `Sorting.dfy`, `Texts.dfy` | results, products and powers of ten, sums over rows and their laws, sorting a set, string operations |
| `Calendar.dfy` | Gregorian dates, day numbers, month windows |
| `DecimalArithmetic.dfy` | the percentage: divide in 28 digits, times 100, quantize to two places; its closed form |
| `DateText.dfy`, `NumberText.dfy`, `Numerals.dfy` | textual dates and decimal numerals: the readers, and the grammar of exactly what they read |
| `Ledger.dfy` | the tables and the queries: filter, sum, group by month, order by |
| `PlansParser.dfy` | the sheet reader, from the grid of cells on |
| `InsertPlans.dfy` | the upload: check every row, then insert all or none |
| `UnitOfWork.dfy` | session, plan repository and unit of work as classes, and one upload request through them |
| `Interleaving.dfy` | any number of uploads at once, as a step system over the committed plan table |
| `Completion.dfy` | what that system lets happen: uploads finish, the constraint catches a stale check, no state is a dead end |
| `PlansPerformance.dfy`, `YearPerformance.dfy`, `ReportsAgree.dfy` | the two reports, and that they agree |
| `UserCredits.dfy` | payment bucketing, open and closed credits, overdue days |
| `SlippingYear.dfy` | the one kind of year whose shares miss 100.00 by more than half a hundredth a month |
| `SeedLoader.dfy` | loading the five CSV files |
| `SeededReports.dfy` | the reports over a seeded database, and seeds on which they differ |

Each use case whose code loops is a method proved equal to a function of the tables; the lemmas are about that
function. Amounts are whole cents, as the `NUMERIC(18,2)` columns store them; percentages are whole hundredths of
a percent. A date is always a valid date between years 1 and 9999, as Python's `date` is. An exception is an
`Err` value.

The main results, hardest first:

- **Concurrent uploads are serializable.** For every schedule of any number of uploads, with existence checks that
  read arbitrarily old snapshots, every committed state is the initial table with whole winning files applied one
  by one, each exactly as the one-step upload would have done it at its commit. Losers contribute nothing, and
  a loser that was not aborted from outside would be turned down again on the current table. Every committed table
  is well formed if the first one is.
- **Uploads finish.** From any state, a file none of whose keys an open transaction holds, run to its end, commits exactly
  what the one-step upload gives; files run one after another give the one-step uploads in sequence; aborting what runs
  always leads back to such a state. Two uploads of one file can both pass their checks; the unique constraint then
  fails the second, and only the first remains.
- **What is stored is what is typed.** An accepted sheet stores, row by row, the date its period cell reads as, the
  category its text names and the cents of the number its sum cell denotes; the readers accept exactly the texts of a
  small grammar, signs and exponents included.
- **Three roundings in closed form.** For all amounts, a percentage is printed exactly when the exact ratio rounded
  once, half to even, has at most 28 digits, and it is that ratio less a slip of at most one hundredth. There is a
  slip exactly when the first rounding moves the ratio onto a midpoint from the side of the odd neighbour. Below
  10^23 cents nothing slips; less than 10^12 cents above, something does.
- **The two reports agree exactly when** nothing is dated earlier in a finished month than the plan and the category has
  no other plan in it (or those amounts cancel), for plans of any date. With plans dated the first of a month they
  therefore always agree, in both directions, although one sums date ranges and the other groups by month.
- **The shares add up** to 100.00 within 0.01 * floor(k / 2), k months being active, for all amounts of any size and
  sign, with exactly one exception: eleven active months that all slip the same way.
- **Conservation.** The plan report's totals count each credit and payment as often as windows of due plans contain it,
  for plans of any date; with plans dated the first of a month the windows are disjoint and each is counted once. The
  year's rows add up to the year.
- **One pass refines filtered sums** in the payment buckets, for every order the queries may answer in.

Where the code does less than it means to:

- The row number in an upload issue counts parsed rows, so it names the sheet row exactly when no blank row was skipped
  before it (`InsertPlans.ReportedRowNumber`); `InsertPlans.ReportedRowCanBeWrong` gives a sheet on which it does not.
- The upload accepts only plans dated the first of a month; the seed loader accepts any date (`SeedLoader.AnyPlanIsRead`).
  `ReportsAgree.FiguresAgreeExactlyWhen` says when the reports then agree, and
  `SeededReports.SeededReportsCanDisagree` gives, for every other day of a month, files on which they do not.
- Two due plans of one category and month, which the seed loader can store, have overlapping windows
  (`PlansPerformance.WindowsCanOverlap`), so the
  plan report counts what lies in both twice; `PlansPerformance.WindowsOverlapExactlyWhen` says when.
- The bound floor(k / 2) on the shares fails for some signed monthly sums above 10^23 cents:
  `YearPerformance.IssuanceSharesAddUp` says exactly when in terms of the tables, and
  `SlippingYear.SharesCanMissByMore` gives storable credits of such a year. It holds for all non-negative amounts.

## Model

| member | source | states |
|---|---|---|
| Interleaving.EveryScheduleIsSerial | app/application/use_cases/insert_plans.py:31-72 | under every interleaving, with stale existence checks, each committed state has unique (period, category) keys and equals the winning files applied whole, one at a time, in commit order |
| Interleaving.AllOrNothing | app/infrastructure/db/unit_of_work.py:38-54 | an upload is committed iff it is a winner, a winner exactly once with all its rows in one block; a rejected or key-clashing upload would also be refused by a fresh upload on the current table |
| Interleaving.CommitIsUpload | app/infrastructure/db/models.py:75 | with the unique constraint enforced as rows land, what a transaction commits is what the one-step upload gives on the table at that moment |
| Interleaving.RunKeeps | app/infrastructure/repositories/plans.py:16-34 | every run keeps open transactions apart from the table and from each other, and history serial and growing |
| Interleaving.EveryCommittedTableIsGood | app/application/use_cases/insert_plans.py:42-72 | under every interleaving of uploads of sheets, every committed table has unique keys, first-of-month periods, non-negative sums and dictionary categories |
| Interleaving.RejectionIsFinal | app/application/use_cases/insert_plans.py:53-63 | a file refused on some committed plans is refused on any later ones, since plans are never deleted |
| Completion.TurnIsUpload | app/application/use_cases/insert_plans.py:21-72 | in any state in which no open transaction holds a key of the file, an upload run to its end commits exactly the one-step upload's table, or fails with exactly its issues and changes nothing else |
| Completion.InTurnIsOneByOne | app/infrastructure/db/unit_of_work.py:52-54 | any number of files, one after another, leave the table that uploading each in one step leaves, and exactly the accepted ones are committed |
| Completion.AloneIsUpload | app/application/use_cases/insert_plans.py:21-72 | an undisturbed upload on a fresh table commits exactly the one-step upload's result, or fails with exactly its issues |
| Completion.StaleLoserMeetsConstraint | app/infrastructure/db/models.py:75 | a second upload of a file whose checks read the table as it was before the first passes them, is failed by the unique constraint at its first row, and leaves only the first upload's rows |
| Completion.HeldKeyWaits | app/infrastructure/repositories/plans.py:28-34 | while another open transaction holds the key of the next row, inserting it waits and changes nothing |
| Completion.NoDeadEnd | app/infrastructure/db/unit_of_work.py:38-50 | from every reached state, aborting what still runs releases all held rows, changes nothing committed, and lets any files be uploaded |
| DecimalArithmetic.PercentExactly | app/application/use_cases/year_performance.py:84-87 | for all amounts, a percentage is printed iff the ratio rounded once has at most 28 digits, and equals it iff the two roundings do not slip; the difference is the slip |
| DecimalArithmetic.TwoRoundings | app/application/use_cases/year_performance.py:87 | exactly when and by how much rounding to a grid of 1/p and then to integers differs from rounding once: the first lands on a midpoint, the second takes the even side, the quotient is on the odd one |
| DecimalArithmetic.PercentRoundsOnce | app/application/use_cases/year_performance.py:84-87 | below 10^23 cents, divide in 28 digits, times 100 and quantize give the exact ratio rounded once half to even, and never fail |
| DecimalArithmetic.PrintedError | app/application/use_cases/year_performance.py:84-87 | without a slip a printed percentage is within half a hundredth of the exact ratio; with one, beyond half but below 11/20 |
| DecimalArithmetic.LimitIsNearlySharp | app/application/use_cases/plans_performance.py:41-48 | a numerator less than 10^12 above 10^23 cents whose printed percentage is not the correctly rounded one |
| DecimalArithmetic.PercentMonotone | app/application/use_cases/plans_performance.py:41-48 | for any size, a larger non-negative amount never prints a smaller percentage, and is never printable when the smaller is not |
| DecimalArithmetic.RoundingTwice | app/application/use_cases/year_performance.py:87 | rounding to a grid of 1/p and then to integers equals rounding once, for every quotient m/d with d < p and p even |
| DecimalArithmetic.HalfEvenIsNearest | app/application/use_cases/year_performance.py:87 | the rounding rule gives a nearest integer, the even one on a tie |
| DecimalArithmetic.TimesHundredExact | app/application/use_cases/year_performance.py:87 | multiplying a 28-digit quotient by 100 loses nothing |
| ReportsAgree.FiguresAgreeExactlyWhen | app/application/use_cases/plans_performance.py:32-48 | for a plan of any date whose month is over, the reports show the same figures iff the category's other plans of the month add up to 0 and so do the amounts dated earlier in the month; in general they differ by exactly these |
| ReportsAgree.MonthIsListed | app/application/use_cases/year_performance.py:47-59 | every plan-report row has its month in the year report |
| ReportsAgree.PlanRowsReappear | app/application/use_cases/plans_performance.py:32-48 | with plans dated the first of a month, every plan-report row whose month is over has a year-report row of the same period with equal plan sum, actual sum and completion |
| ReportsAgree.YearRowsReappear | app/application/use_cases/year_performance.py:55-79 | every finished year-report month with a plan of a category, of any date, has a plan-report row; figures are equal iff the other plans and the earlier amounts of the month add up to 0, and always, with the same period, when plans are dated the first of a month |
| PlansPerformance.Execute | app/application/use_cases/plans_performance.py:16-52 | the loop over plans computes the report on the due plans, first error first |
| PlansPerformance.ReportShowsDuePlans | app/application/use_cases/plans_performance.py:17-50 | one row for each due plan of the two categories, in order of period and category id, with the plan's sum and the credit bodies or payment sums dated from the plan to the end of its month or the check date |
| PlansPerformance.FirstFailureDecides | app/application/use_cases/plans_performance.py:26-30 | when the report cannot be given, the first due plan in order that fails decides the error |
| PlansPerformance.EachAmountCounted | app/application/use_cases/plans_performance.py:25-37 | for plans of any date, the issuance actual sums add up to every credit body, and the collection ones to every payment sum, times the number of due plans of the category whose window contains its date |
| PlansPerformance.EachAmountCountedOnce | app/application/use_cases/plans_performance.py:25-37 | with unique plans dated the first of a month, they add up to exactly the credit bodies and payment sums dated by the check date in a planned month, each once |
| PlansPerformance.WindowsOverlapExactlyWhen | app/application/use_cases/plans_performance.py:32-37 | for plans of any date, two windows share a day iff the plans are of one month and both due |
| PlansPerformance.WindowsAreDisjoint | app/application/use_cases/plans_performance.py:32-37 | with unique plans dated the first of a month, the windows of two plans of one category share no day |
| PlansPerformance.WindowsCanOverlap | app/application/use_cases/plans_performance.py:32-37 | two plans of one category and month with different keys and a day in both windows |
| PlansPerformance.LaterDateKeepsEntries | app/application/use_cases/plans_performance.py:17-50 | whatever the amounts and signs, the earlier report's (period, category, plan sum) list is a prefix of the later one's |
| PlansPerformance.LaterDateOnlyAdds | app/application/use_cases/plans_performance.py:17-50 | with non-negative amounts a later check date lowers no entry's actual sum or printed percentage, and if the later report can be given so can the earlier |
| PlansPerformance.ReportIsGivenExactlyWhen | app/application/use_cases/plans_performance.py:26-48 | the report is given iff every due plan's category is in the dictionary and no rounded completion has more than 28 digits; percentages are once-rounded ratios less their slip, which is none below 10^23 cents |
| YearPerformance.Execute | app/application/use_cases/year_performance.py:16-81 | the per-month dictionaries, the sorted union of their keys and the row loop compute the figures read directly off the tables |
| YearPerformance.RowsShowTheirMonths | app/application/use_cases/year_performance.py:55-79 | each row shows the counts and sums of its month's credits, payments and plans, and their percentages of the month's plans and of the year's credits and payments |
| YearPerformance.PlansByMonth | app/application/use_cases/year_performance.py:23-33 | the accumulating loop leaves, per category, the sums of exactly the months that have a plan |
| YearPerformance.ListsExactlyTheActiveMonths | app/application/use_cases/year_performance.py:47-55 | each month at most once, ascending, and exactly those with a plan of either category, a credit or a payment |
| YearPerformance.ActualsAreConserved | app/application/use_cases/year_performance.py:35-45 | counts and actual sums of the listed months add up to the count and sum of the year's credits and of its payments |
| YearPerformance.PlansAreConserved | app/application/use_cases/year_performance.py:22-33 | plan sums of the listed months add up to the year's plans of the category |
| YearPerformance.RowOrderIrrelevant | app/application/use_cases/year_performance.py:22-81 | the report is the same whatever the order of plan, credit and payment rows |
| YearPerformance.IssuanceSharesAddUp | app/application/use_cases/year_performance.py:72-74 | with a positive year total and any amounts, the issuance shares add up to 100.00 within 0.06, exactly when one month has a non-zero sum, and within 0.01 * floor(k / 2), k months having one, iff not k = 11 and the ratios of all these months slip the same way; so always for non-negative monthly sums and for sums below 10^23 cents |
| YearPerformance.ActiveMonths | app/application/use_cases/year_performance.py:40-53 | the active rows are counted by the months of the year with a non-zero sum |
| YearPerformance.CollectionSharesAddUp | app/application/use_cases/year_performance.py:75-77 | the same for collection shares |
| SlippingYear.SharesMissByMore | app/application/use_cases/year_performance.py:72-87 | on any tables with certain monthly sums, some negative, eleven months slip together and the shares miss 100.00 by 0.06 |
| SlippingYear.SharesCanMissByMore | app/infrastructure/db/models.py:29-40 | credits with distinct ids and bodies within NUMERIC(18,2) that have these monthly sums and on which the report is given |
| YearPerformance.ReportPrintsRatios | app/application/use_cases/year_performance.py:61-87 | the report is given iff the four rounded ratios of every listed month have at most 28 digits; all its percentages are once-rounded ratios less their slips |
| YearPerformance.ModestReport | app/application/use_cases/year_performance.py:61-87 | with monthly sums below 10^23 cents the report is always given and nothing slips |
| InsertPlans.AcceptedExactlyWhen | app/application/use_cases/insert_plans.py:27-72 | a file is accepted iff all categories are known, all keys are pairwise distinct and none is stored; then all rows are appended in order |
| InsertPlans.OneIssuePerFailingRow | app/application/use_cases/insert_plans.py:31-68 | exactly one issue per failing row, in row order, and issues plus insertable rows are the rows |
| InsertPlans.EveryRunKeepsStoreGood | app/application/use_cases/insert_plans.py:42-72 | along every sequence of sheets, stored plans keep first-of-month periods, non-negative sums, dictionary categories and unique keys, and none is lost |
| InsertPlans.SheetKeepsStoreGood | app/application/use_cases/insert_plans.py:65-72 | a success adds exactly the reported number of plans and keeps the earlier ones; a failure adds none |
| InsertPlans.ReportedRowNumber | app/application/use_cases/insert_plans.py:31-47 | reported row number plus blank rows skipped before it is the sheet row, so they match iff no blank row precedes |
| InsertPlans.ReportedRowCanBeWrong | app/infrastructure/excel/plans_parser.py:50-63 | a sheet with a blank row whose bad row 3 is reported as row 2 |
| InsertPlans.CentsAreNearest | app/infrastructure/db/models.py:69 | the NUMERIC(18,2) column keeps the amount exactly with two decimals, else a nearest cent |
| InsertPlans.TypedSumIsStored | app/infrastructure/excel/plans_parser.py:141-173 | a sum typed with two decimals after a point or a comma is read and becomes that many cents |
| InsertPlans.UploadedPlans | app/application/use_cases/insert_plans.py:65-71 | an accepted sheet appends one plan per data row, in order, with the date its period cell reads as, the id of its category text and the cents nearest to the number its sum cell denotes |
| InsertPlans.TypedSumReachesThePlan | app/application/use_cases/insert_plans.py:65 | a stored row whose sum is typed with two decimals holds exactly that many cents |
| InsertPlans.RefusedFor | app/application/use_cases/insert_plans.py:31-68 | a refused sheet reports what the reader found, or else exactly the failing rows in order |
| InsertPlans.CentsOfNegative | app/infrastructure/db/models.py:69 | a negative amount becomes the negative of what the amount becomes |
| UnitOfWork.HandleUpload | app/api/v1/endpoints/plans.py:24-36 | one request through the unit of work refuses empty and oversized files, otherwise leaves the table as the one-step upload does, with each row's date, category and cents as its cells say, or as it was, and reports its count or error |
| UnitOfWork.Execute | app/application/use_cases/insert_plans.py:21-72 | inside an open unit of work, success commits the one-step result; failure commits nothing and leaves nothing flushed |
| UnitOfWork.CheckRowsAgainst | app/application/use_cases/insert_plans.py:27-65 | the row loop over the repository gives the issues and insertions of the specification |
| UnitOfWork.Session.Flush | app/infrastructure/repositories/plans.py:28-34 | inserting succeeds iff the rows' keys are unique and not visible, and then flushes all of them; otherwise none stay |
| UnitOfWork.Session.Commit | app/infrastructure/db/unit_of_work.py:52-54 | committing moves the flushed rows to the table and nothing else |
| UnitOfWork.PlanRepository.ExistsForPeriodCategory | app/infrastructure/repositories/plans.py:16-23 | the scan answers whether a visible plan has both columns, which among unique keys is exactly whether the unique constraint would refuse a plan with them |
| UnitOfWork.PlanRepository.BulkInsert | app/infrastructure/repositories/plans.py:25-34 | all rows or none, by the unique constraint |
| UnitOfWork.SqlUnitOfWork.Enter | app/infrastructure/db/unit_of_work.py:28-36 | a new session with a repository on it |
| UnitOfWork.SqlUnitOfWork.Exit | app/infrastructure/db/unit_of_work.py:38-50 | the session is dropped and nothing uncommitted survives |
| PlansParser.Parse | app/infrastructure/excel/plans_parser.py:32-71 | the reading loop with its shared issue list computes the specified rows or issues |
| PlansParser.ParsePeriod | app/infrastructure/excel/plans_parser.py:84-126 | a date, or exactly one issue appended |
| PlansParser.ParseCategory | app/infrastructure/excel/plans_parser.py:129-139 | a stripped text, or exactly one issue appended |
| PlansParser.ParseSum | app/infrastructure/excel/plans_parser.py:142-173 | a non-negative number, or exactly one issue appended |
| PlansParser.NumeralInSumCell | app/infrastructure/excel/plans_parser.py:142-173 | a numeral in a text or number cell is a negative sum iff it has a minus and is not zero, otherwise the number it denotes |
| PlansParser.NegativeSumIsReported | app/infrastructure/excel/plans_parser.py:163-171 | a minus before a non-zero sum refuses the sheet with that issue for that row |
| PlansParser.ColumnMeaning | app/infrastructure/excel/plans_parser.py:36-48 | a column is the first header cell that shows its name in any case and white space, missing iff there is none; its cell is empty when the row is too short |
| PlansParser.OtherRefusals | app/infrastructure/excel/plans_parser.py:26-69 | the empty file, the missing columns (exactly these, in order) and the file without data rows are refused iff they are that |
| PlansParser.ProblemMeaning | app/infrastructure/excel/plans_parser.py:84-171 | which problem a cell has, read off the cell: blank, no date, not the first of a month, no number, negative |
| PlansParser.AcceptsExactlyGoodSheets | app/infrastructure/excel/plans_parser.py:32-71 | success iff the three columns exist, some row is not blank and every such row is good; then one output row per data row, in order |
| PlansParser.IssuesAreTheBadCells | app/infrastructure/excel/plans_parser.py:50-66 | the reader fails on rows iff the header is complete and a required cell of a non-blank row is bad; the issues it then returns are exactly the bad cells, once each, ordered by row, then period, category, sum |
| PlansParser.PeriodMeaning | app/infrastructure/excel/plans_parser.py:95-126 | a period is accepted iff the cell is, or some format reads it as, a first of a month |
| PlansParser.TrueRowNumber | app/infrastructure/excel/plans_parser.py:50-52 | the k-th data row stands in sheet row k + 2 plus the blank rows before it |
| DateText.PrintThenParse | app/infrastructure/excel/plans_parser.py:101-106 | printing any date in any accepted format and parsing it gives the date back, leap days included |
| DateText.AtMostOneFormat | app/infrastructure/excel/plans_parser.py:101-106 | no text is accepted by two formats |
| DateText.DateMeaning | app/infrastructure/excel/plans_parser.py:101-106 | a format reads a text as a date iff the text is the date's four-digit year, one or two digit month and day in the format's order between its separators |
| DateText.TrialOrderIrrelevant | app/infrastructure/seed/csv_loader.py:27-32 | the result of trying formats is the reading of the one that accepts, whatever the order |
| DateText.ReadersAgree | app/infrastructure/seed/csv_loader.py:23-32 | the sheet and CSV date readers agree exactly on texts that are not slash dates |
| Numerals.PrintedCentsParse | app/infrastructure/seed/csv_loader.py:35-39 | cents printed with a point or a comma are read back as the same amount |
| Numerals.AmountMeaning | app/infrastructure/excel/plans_parser.py:153-155 | a text is read as a number iff it is white space around a numeral (sign, digits, point or comma and decimals, exponent) that denotes it |
| Numerals.NumeralsAreRead | app/infrastructure/seed/csv_loader.py:35-39 | every such numeral, signed or not, is read as the signed number its digits denote |
| Ledger.RangeIsGroup | app/infrastructure/repositories/credits.py:26-48 | the range sum over a whole month is that month's group sum |
| Ledger.StatsAddUp | app/infrastructure/repositories/payments.py:37-51 | the totals of the groups returned add up to the year, although empty months have no group |
| Ledger.ListUpToGrows | app/infrastructure/repositories/plans.py:36-43 | the ordered list of due plans for an earlier date is a prefix of the one for a later date |
| Ledger.OrderedPlans | app/infrastructure/repositories/plans.py:45-52 | ordering sorts by period and category and keeps the rows |
| UserCredits.Execute | app/application/use_cases/get_user_credits.py:14-74 | for every order the queries may answer in: one view per credit, in issuance order, showing its dates, amounts, overdue days and the payments on it by type, field by field |
| UserCredits.ViewShowsCredit | app/application/use_cases/get_user_credits.py:43-72 | a closed credit shows its actual return date and all payments on it; an open one the agreed date, the days overdue, its body payments and its interest payments |
| UserCredits.ListedCredits | app/infrastructure/repositories/credits.py:17-24 | the query lists each credit of the user as often as the table holds it, and no other |
| UserCredits.BucketPayments | app/application/use_cases/get_user_credits.py:33-41 | the single pass leaves every credit's total, body sum and interest sum |
| UserCredits.TotalSplitsByType | app/application/use_cases/get_user_credits.py:37-41 | per credit, total = body + interest + payments of other types |
| UserCredits.EveryPaymentIsShown | app/application/use_cases/get_user_credits.py:43-74 | when all payments are body or interest, the views add up to every payment on the credits, once each |
| UserCredits.OverdueMeaning | app/application/use_cases/get_user_credits.py:57 | overdue days are positive iff today is after the return date, and then count the calendar days |
| UserCredits.OverdueGrowsDaily | app/application/use_cases/get_user_credits.py:57 | from the return date on, each calendar day adds one |
| Calendar.DaysFromCountsSteps | app/application/use_cases/get_user_credits.py:57 | the day-number difference is the number of calendar successor steps |
| Calendar.NextDayNumber | app/application/use_cases/get_user_credits.py:57 | the next calendar day, across month ends and leap years, has the next day number |
| Calendar.DayNumberOrder | app/application/use_cases/get_user_credits.py:57 | day numbers order dates as year, month and day do |
| Calendar.WindowIsMonth | app/application/use_cases/plans_performance.py:54-57 | the window from the first of a month to its end holds exactly that month's dates |
| SeedLoader.SeedingTwice | app/infrastructure/seed/csv_loader.py:55-159 | a successful seed load run again on the same files changes nothing, and no load changes an existing row |
| SeedLoader.LoadedRows | app/infrastructure/seed/csv_loader.py:97-118 | existing rows stay, every id of the file is present, and every added row is the reading of a record |
| SeedLoader.EveryTableIsLoaded | app/infrastructure/seed/csv_loader.py:55-61 | a successful load loads each of the five tables from its own file: existing rows kept, every id present, added rows what the reader makes of a record |
| SeedLoader.SeededRowsAreSound | app/infrastructure/db/models.py:16-78 | after a successful load no required date is missing, every reference leads to a row, and logins, names and plan keys are unique |
| SeedLoader.LoadsExactlyWhen | app/infrastructure/seed/csv_loader.py:63-80 | a table loads iff all ids are integers, new records can be read and no new id is repeated; then the added ids are those of the file |
| SeedLoader.MoneyMeaning | app/infrastructure/seed/csv_loader.py:35-39 | a money column is empty, for zero, or a numeral, signed or not, kept to the cent |
| SeedLoader.PaymentMeaning | app/infrastructure/seed/csv_loader.py:147-155 | a payment record is read iff its columns are, and each field is its own column |
| SeedLoader.CreditMeaning | app/infrastructure/seed/csv_loader.py:104-115 | the same for a credit |
| SeedLoader.PlanMeaning | app/infrastructure/seed/csv_loader.py:127-132 | the same for a plan |
| SeedLoader.UserMeaning | app/infrastructure/seed/csv_loader.py:70-74 | the same for a user |
| SeedLoader.EntryMeaning | app/infrastructure/seed/csv_loader.py:90 | the same for a dictionary entry |
| SeedLoader.DateMeaning | app/infrastructure/seed/csv_loader.py:23-32 | a date column is empty, for no date, or a date in one of the two CSV formats |
| SeedLoader.IdIsRead | app/infrastructure/seed/csv_loader.py:71-76 | an id column with a signed integer in it is read as that integer |
| SeedLoader.UnreadableIsBadValue | app/infrastructure/seed/csv_loader.py:32 | what cannot be read is a bad value and nothing else |
| SeedLoader.SeedDatesMatchSheetDates | app/infrastructure/seed/csv_loader.py:23-32 | a CSV date is read as the sheet reader would, and refused iff no format or only the slash format reads it |
| SeedLoader.AnyPlanIsRead | app/infrastructure/seed/csv_loader.py:123-140 | a plan record printed with any date, amount and category is read back, whatever the day of the month |
| SeedLoader.AnyPaymentIsRead | app/infrastructure/seed/csv_loader.py:140-158 | a payment printed with any date, amount, credit and type is read back |
| SeedLoader.AnyCreditIsRead | app/infrastructure/seed/csv_loader.py:97-118 | a credit printed with any dates, closed or open, and any amounts is read back |
| SeededReports.SeededTablesMeetConstraints | app/infrastructure/db/models.py:64-78 | every seeded database, in whatever row order, has the unique keys the comparison of the reports needs |
| SeededReports.SeededReportsCanDisagree | app/infrastructure/seed/csv_loader.py:120-140 | for every date not the first of a month and every positive amount, of any size, files the loader accepts on which the two reports show different actual sums |

## Left out

- DecimalArithmetic.PercentRoundsOnce: stated below 10^23 cents, because above it the claim can fail; PercentExactly says exactly when. Sums of fewer than 100000 column values stay below it.
- Interleaving.AllOrNothing: says nothing about uploads aborted from outside beyond leaving no rows, because deadlocks, timeouts and lost connections are not decided by this code.
- Routers, dependencies, error mapping, schemas and DTO copying: thin plumbing.
- Tokens, password hashes, API keys and the bootstrap of the service user: they rest on libraries outside the repository.
- The session library, the database engine and migrations: only tables, query meaning, the unique constraint, commit and rollback are kept; a clash with another open transaction's row is modelled as waiting.
- Auto-increment plan ids: nothing but an error message reads them.
- Column overflow of NUMERIC(18,2) and decimal sums of more than 28 digits: stored amounts are unbounded whole cents, and totals are exact.
- Opening workbooks, CSV sniffing and file reading: the models start from a grid of cells or a list of records.
- Decimal NaN and Infinity, exponents beyond the decimal limits, underscores in numerals and non-ASCII digits.
- The wording of issue and error messages: issues are a location and a kind of problem.
- Float results of sums on SQLite: sums are exact.
- Asynchronous scheduling, except the interleaving of upload steps.
- Ties between credits issued on one day: the query result is any order the query allows, so nothing is claimed about them.
- Settings, logging, scripts, containers and the CSV data.
