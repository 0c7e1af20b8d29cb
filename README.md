# Reporting queries of the accounting application

The accounting application keeps a ledger of bank movements (`MOVEMENTS`:
entry date, signed amount, optional category) and draws two charts from it.
`GraphRepository` computes their data with two SQL queries:

- `rollingSum()` gives, for every movement date on or after the date two
  years before today, the balance of the whole ledger at that date. The
  cutoff has no upper bound, so a future-dated movement also gets a row;
- `creditsPerDay()` gives, for every date with a categorised, non-internal
  movement on or after the first day of the month two months back (again with
  no upper bound), the sum of that day's credits and the sum of
  that day's debits. Uncategorised movements and transfers between the
  organisation's own accounts (categories "Crédit interne" and
  "Débit interne") are left out.

This project models both queries as pure Dafny functions of the ledger
(`seq<Movement>`) and of the current date, which the queries read from the
clock and which is a parameter here. Amounts are integers in minor units.

- `dates.dfy` holds the `LocalDate` arithmetic used for the start dates:
  `minusYears`, `minusMonths` and `withDayOfMonth`, including how they clamp
  the day of month.
- `sql.dfy` holds the SQL semantics the queries rely on. `SUM` and `MIN`
  yield NULL over no rows. `GROUP BY date ORDER BY date` yields each key
  once, in increasing order.
- `graph_repository.dfy` follows each query step by step as the database
  evaluates it:
  - for `rollingSum`: window sum, `WHERE`, `GROUP BY` with `MIN`, `ORDER BY`;
  - for `creditsPerDay`: inner join on the category, `WHERE`, `GROUP BY` with
    two filtered `SUM`s, `ORDER BY`.

  Next to each query it states the report declaratively, as `IsBalanceReport`
  and `IsCreditReport`. It proves three things about each report:
  - the query meets it;
  - only one sequence of rows meets it;
  - further properties, proved against the report: steps between rows, signs
    of the sums, which movements matter, and independence from the order of
    the table.

Where the behaviour of the code differs from a plain reading of what the
queries are for, the model follows the code:

- **Uncategorised movements.** They have no partner row in the inner join of
  `creditsPerDay`, so they count in neither sum and produce no row. The model
  does not treat them as "no category, not internal".
- **Per-date value of `rollingSum`.** The window frame is `RANGE`, not `ROWS`.
  The window sorts the table by entry date (`SortByDate`), and each row's
  frame runs from the first row to the last row sharing its date
  (`FrameEnd`). Every row of a day therefore sees all of that day's
  movements, whatever their order within the day, and the `MIN` per date is
  taken over equal values. The reported value is the closing balance of the
  day, never an intermediate running total (`WindowBalances`,
  `RollingSumMeetsSpec`, `RollingSumExample`). With a `ROWS` frame the first
  of two same-day rows would see only part of its day
  (`PeerRowsShareFrame`).
- **Empty sums.** A day with credits but no debits has a NULL debit sum, not
  0, because `SUM ... FILTER` over no rows is NULL (`CreditsPerDayExample`).
  The same holds the other way round. A day whose only movements have amount
  0 keeps its row, with both sums NULL (`CreditReportSigns`).

## Model

| member | source | states |
|---|---|---|
| Dates.MinusYears | src/main/java/be/lghs/accounting/repositories/GraphRepository.java:39-40 | same month, the year moved back; the day is kept, except that 29 February becomes 28 February in a non-leap year; the result is a valid date |
| Dates.MinusMonths | src/main/java/be/lghs/accounting/repositories/GraphRepository.java:56-58 | the month index moves back by exactly the given count; the day is kept, or lowered to the last day of a shorter target month; the result is a valid date |
| Dates.WithDayOfMonth | src/main/java/be/lghs/accounting/repositories/GraphRepository.java:56-57 | same year and month, the requested day, which must exist in that month; the result is a valid date |
| Dates.MonthLength | src/main/java/be/lghs/accounting/repositories/GraphRepository.java:39-40 | months have 28 to 31 days, and 29 exactly for February of an ISO leap year |
| Sql.SqlSum | src/main/java/be/lghs/accounting/repositories/GraphRepository.java:63-66 | SUM is NULL exactly when the group has no rows |
| Sql.SqlMin | src/main/java/be/lghs/accounting/repositories/GraphRepository.java:45 | MIN is NULL exactly over no rows; otherwise it is a value of the group that is no larger than any value of the group |
| Sql.InsertKey | src/main/java/be/lghs/accounting/repositories/GraphRepository.java:49-50 | adding one key to ordered, duplicate-free keys keeps them ordered and duplicate-free, and the key set gains exactly that key |
| Sql.GroupKeys | src/main/java/be/lghs/accounting/repositories/GraphRepository.java:49-50 | GROUP BY date ORDER BY date yields the input's dates, each once, strictly increasing, and never more keys than rows |
| Sql.AscendingUnique | src/main/java/be/lghs/accounting/repositories/GraphRepository.java:50 | two strictly increasing date sequences with the same elements are equal, so ordering by a grouped key leaves no choice |
| Sql.GroupKeysBySet | src/main/java/be/lghs/accounting/repositories/GraphRepository.java:49-50 | the grouped keys depend only on which dates occur, not on their order or repetition |
| GraphRepository.SumWherePermutation | src/main/java/be/lghs/accounting/repositories/GraphRepository.java:29 | a sum over the table is the same for any order of its rows |
| GraphRepository.BalanceStep | src/main/java/be/lghs/accounting/repositories/GraphRepository.java:29-34 | between two dates with no movement strictly between them, the balance grows by exactly the later date's net amount |
| GraphRepository.BalanceAppend | src/main/java/be/lghs/accounting/repositories/GraphRepository.java:29-34 | one more movement adds its amount to the balance of every date from its own on |
| GraphRepository.RollingStart | src/main/java/be/lghs/accounting/repositories/GraphRepository.java:39-40 | the cutoff is a valid date before today: same month, two years earlier, and 29 February becomes 28 February |
| GraphRepository.InsertByDateSorts | src/main/java/be/lghs/accounting/repositories/GraphRepository.java:31 | inserting a movement into rows ordered by entry date keeps them ordered and adds exactly that movement |
| GraphRepository.SortByDateSorts | src/main/java/be/lghs/accounting/repositories/GraphRepository.java:31 | the window's ORDER BY arranges the table by entry date, a permutation of its rows: none added, none lost |
| GraphRepository.FrameEnd | src/main/java/be/lghs/accounting/repositories/GraphRepository.java:32-33 | a row's frame ends after the row itself and within the table |
| GraphRepository.FrameEndPeers | src/main/java/be/lghs/accounting/repositories/GraphRepository.java:32-33 | the frame runs on exactly over the row's following peers: every row before the frame end has the row's date, and the row at the frame end, if any, does not |
| GraphRepository.FrameRowsUpTo | src/main/java/be/lghs/accounting/repositories/GraphRepository.java:31-33 | in rows ordered by date, every row inside a row's frame is dated no later than that row |
| GraphRepository.FrameRowsAfter | src/main/java/be/lghs/accounting/repositories/GraphRepository.java:31-33 | in rows ordered by date, every row after a row's frame is dated strictly later than that row |
| GraphRepository.FrameBalance | src/main/java/be/lghs/accounting/repositories/GraphRepository.java:29-33 | in rows ordered by date, the RANGE running sum at a row is the sum of every amount dated on or before the row's date |
| GraphRepository.WindowFrom | src/main/java/be/lghs/accounting/repositories/GraphRepository.java:26-37 | the window yields one row per sorted movement from the given position on |
| GraphRepository.WindowFromDates | src/main/java/be/lghs/accounting/repositories/GraphRepository.java:28-31 | the date column of the window is the entry date column of the sorted table, in order |
| GraphRepository.Window | src/main/java/be/lghs/accounting/repositories/GraphRepository.java:26-37 | the inner select has exactly one row per movement |
| GraphRepository.WindowDates | src/main/java/be/lghs/accounting/repositories/GraphRepository.java:26-37 | the dates of the inner select are exactly the movements' entry dates |
| GraphRepository.WindowBalances | src/main/java/be/lghs/accounting/repositories/GraphRepository.java:26-37 | every row of the inner select carries the balance of the whole table at its date, derived from the sort and the RANGE frame, not assumed |
| GraphRepository.PeerRowsShareFrame | src/main/java/be/lghs/accounting/repositories/GraphRepository.java:31-33 | with movements (1 January, +100), (2 January, −20), (2 January, +50), both 2 January rows carry 130, while the running sum up to the first of them alone, which a ROWS frame would give, is 80 |
| GraphRepository.OnOrAfter | src/main/java/be/lghs/accounting/repositories/GraphRepository.java:48 | the WHERE keeps only existing rows, and exactly the dates not before the cutoff, the cutoff itself included; multiplicities are stated by OnOrAfterKeeps |
| GraphRepository.OnOrAfterKeeps | src/main/java/be/lghs/accounting/repositories/GraphRepository.java:48 | the WHERE keeps each window row dated on or after the cutoff exactly as often as it occurs, and no row dated before it |
| GraphRepository.RowAmountsOnGroup | src/main/java/be/lghs/accounting/repositories/GraphRepository.java:49 | the group of a date holds only amounts of rows with that date, and is non-empty when such a row exists |
| GraphRepository.GroupMins | src/main/java/be/lghs/accounting/repositories/GraphRepository.java:43-49 | one result row per group key; the contents of each row are stated by GroupMinsRow |
| GraphRepository.GroupMinsRow | src/main/java/be/lghs/accounting/repositories/GraphRepository.java:43-49 | the k-th result row has the k-th key as date; its MIN is NULL exactly when no kept row has that date, and otherwise is the amount of one kept row of that date and no larger than any of them, whatever the order of the rows |
| GraphRepository.RollingSum | src/main/java/be/lghs/accounting/repositories/GraphRepository.java:25-53 | at most one row per movement, so an empty ledger gives an empty result |
| GraphRepository.KeptDates | src/main/java/be/lghs/accounting/repositories/GraphRepository.java:36-48 | the dates that survive the WHERE are the movement dates not before the cutoff |
| GraphRepository.KeptGroupMin | src/main/java/be/lghs/accounting/repositories/GraphRepository.java:29-49 | for a key present among the rows kept by the WHERE, the grouped row of that key is the key with the closing balance of that date over the whole table |
| GraphRepository.RollingSumMeetsSpec | src/main/java/be/lghs/accounting/repositories/GraphRepository.java:25-53 | rollingSum has one row per distinct movement date on or after two years before today, in strictly increasing order; each value is the sum of every amount dated on or before that date, the amounts before the cutoff included |
| GraphRepository.BalanceReportUnique | src/main/java/be/lghs/accounting/repositories/GraphRepository.java:49-50 | at most one sequence of rows is the balance report of a ledger |
| GraphRepository.BalanceReportSteps | src/main/java/be/lghs/accounting/repositories/GraphRepository.java:29-50 | from one row of the balance report to the next, the balance grows by exactly the later date's net amount |
| GraphRepository.RollingSumSteps | src/main/java/be/lghs/accounting/repositories/GraphRepository.java:25-53 | in rollingSum, each row's balance is the previous row's plus the net amount of its own date |
| GraphRepository.BalanceReportEmpty | src/main/java/be/lghs/accounting/repositories/GraphRepository.java:42-51 | a balance report is empty exactly when every movement is dated before its start |
| GraphRepository.RollingSumEmpty | src/main/java/be/lghs/accounting/repositories/GraphRepository.java:42-51 | rollingSum is empty exactly when every movement is dated before the cutoff, an empty ledger included |
| GraphRepository.EarlyMovementReport | src/main/java/be/lghs/accounting/repositories/GraphRepository.java:36-48 | a movement before the cutoff, added anywhere in the table, adds no row to the balance report, yet adds its amount to every row's balance |
| GraphRepository.EarlyMovementShiftsBalances | src/main/java/be/lghs/accounting/repositories/GraphRepository.java:36-48 | in rollingSum, a movement dated before the cutoff, added anywhere in the table, keeps the dates as they are and shifts every balance by its amount, because the WHERE runs after the window over the whole table |
| GraphRepository.RollingSumOrderIndependent | src/main/java/be/lghs/accounting/repositories/GraphRepository.java:25-53 | rollingSum depends only on the multiset of movements, not on the order of the table |
| GraphRepository.RollingSumExample | src/main/java/be/lghs/accounting/repositories/GraphRepository.java:25-53 | three movements on 1 and 2 January 2024 (+100, +50, −20), seen on 1 June 2024, give (1 January, 100) and (2 January, 130) |
| GraphRepository.CreditsStart | src/main/java/be/lghs/accounting/repositories/GraphRepository.java:56-58 | the start is a valid date before today: the first day of the month two months back, in the previous year when today is in January or February |
| GraphRepository.ReportedRows | src/main/java/be/lghs/accounting/repositories/GraphRepository.java:68-74 | the inner join and WHERE keep exactly the movements that satisfy Reported: categorised, dated from the start, and with a category that is neither internal-transfer name; multiplicities are stated by ReportedRowsKeeps |
| GraphRepository.ReportedRowsKeeps | src/main/java/be/lghs/accounting/repositories/GraphRepository.java:68-74 | the inner join and WHERE keep each reported movement exactly as often as it occurs in the table, and no other movement |
| GraphRepository.Positives | src/main/java/be/lghs/accounting/repositories/GraphRepository.java:63-64 | the credit filter keeps every positive amount, as often as it occurs, and nothing else |
| GraphRepository.Negatives | src/main/java/be/lghs/accounting/repositories/GraphRepository.java:65-66 | the debit filter keeps every negative amount, as often as it occurs, and nothing else |
| GraphRepository.CreditsPerDay | src/main/java/be/lghs/accounting/repositories/GraphRepository.java:55-78 | at most one row per movement, so an empty ledger gives an empty result |
| GraphRepository.GroupSums | src/main/java/be/lghs/accounting/repositories/GraphRepository.java:61-66 | one result row per group key; the contents of each row are stated by CreditColumn, DebitColumn and CreditsPerDayMeetsSpec |
| GraphRepository.CreditColumn | src/main/java/be/lghs/accounting/repositories/GraphRepository.java:63-64 | a date's positive reported amounts exist exactly when a reported credit of that date exists, and they total the sum of those credits over the ledger |
| GraphRepository.DebitColumn | src/main/java/be/lghs/accounting/repositories/GraphRepository.java:65-66 | a date's negative reported amounts exist exactly when a reported debit of that date exists, and they total the sum of those debits over the ledger |
| GraphRepository.CreditsPerDayMeetsSpec | src/main/java/be/lghs/accounting/repositories/GraphRepository.java:55-78 | creditsPerDay has one row per date with a reported movement, in strictly increasing order; each row holds the sum of that date's reported credits and of its reported debits, each NULL when there is none |
| GraphRepository.CreditReportUnique | src/main/java/be/lghs/accounting/repositories/GraphRepository.java:75-76 | at most one sequence of rows is the credit report of a ledger |
| GraphRepository.SumWherePositive | src/main/java/be/lghs/accounting/repositories/GraphRepository.java:63-64 | a sum of positive amounts is non-negative, and positive once there is one |
| GraphRepository.SumWhereNegative | src/main/java/be/lghs/accounting/repositories/GraphRepository.java:65-66 | a sum of negative amounts is non-positive, and negative once there is one |
| GraphRepository.CreditReportSigns | src/main/java/be/lghs/accounting/repositories/GraphRepository.java:63-66 | a credit sum, when present, is positive and a debit sum negative; a date whose reported amounts are all zero has both sums NULL |
| GraphRepository.CreditsPerDaySigns | src/main/java/be/lghs/accounting/repositories/GraphRepository.java:63-66 | in creditsPerDay, every present credit sum is positive and every present debit sum negative |
| GraphRepository.ExcludedMovementIgnored | src/main/java/be/lghs/accounting/repositories/GraphRepository.java:69-73 | inserting an uncategorised movement, an internal transfer or a movement before the start anywhere in the ledger leaves creditsPerDay unchanged, so a date with only such movements has no row |
| GraphRepository.CreditsPerDayOrderIndependent | src/main/java/be/lghs/accounting/repositories/GraphRepository.java:55-78 | creditsPerDay depends only on the multiset of movements, not on the order of the table |
| GraphRepository.CreditsPerDayExample | src/main/java/be/lghs/accounting/repositories/GraphRepository.java:55-78 | an internal credit of 200 and a sale of 50 on 1 May 2024, seen on 1 June 2024, give the single row (1 May, 50, NULL) |

## Left out

- `MovementsController` and the rest of the web layer only call these queries
  and render their results. They are not part of this model.
- The database access itself (jOOQ, JDBC, the `DSLContext`) is not modelled.
  The `MOVEMENTS` table joined with the category names is a sequence of
  `Movement` values.
- `LocalDate.now()` reads the clock in the JVM's default time zone.
  `Date.valueOf` converts the start date to a SQL date in that same zone. The
  model takes the resulting calendar date `today` as a parameter and does not
  model time zones.
- Amounts are `BigDecimal` in the source and numeric in the database. The
  model uses integers of the smallest currency unit, so scales and rounding
  are not modelled.
- `LocalDate` holds years between −999,999,999 and 999,999,999.
  `minusYears` and `minusMonths` throw `DateTimeException` outside that
  range. The model's years are unbounded, so that exception is not modelled.
- `Dates.Valid` is a precondition on `today`. A `LocalDate` cannot hold an
  invalid date, so the source has no error path for one.
- A category whose name is NULL would fail the `<>` tests of the WHERE. The
  model assumes that every category has a name.
- The `account_id` column is not modelled, since neither query distinguishes
  accounts.
- `SortByDate` fixes one of the row orders that `ORDER BY entry_date`
  allows; the database may order rows of one date differently. This does
  not change the result: `FrameBalance` holds for every arrangement ordered
  by date, because rows of one date share their frame.
- Both queries are read-only and deterministic given the ledger and `today`.
  Running a query twice gives the same result because they are functions, so
  no separate idempotence lemma is stated.
