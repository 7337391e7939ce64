# Exchange-counter bookkeeping, modelled in Dafny

This project models the bookkeeping engine of a THB/MMK exchange-counter
back office. For each supplier (exchange counter) the engine keeps:

- a ledger of purchases (THB bought with MMK) and sales (THB paid out to customers);
- an append-only rate history;
- one daily-summary row per supplier and Bangkok calendar day.

A summary row holds the day's opening balances, its purchased and sold
aggregates, its closing balances, the cumulative average rate and the daily
profit. The model covers:

- **Ensure / rollover** (`getOrCreateDailySummary`): a missing row opens with
  the closing balances of the supplier's latest earlier row, or zero.
- **Recompute** (`updateDailySummary`): today's row is re-summed from the
  ledger, using Bangkok days, and its derived fields are rewritten.
- **Recording and deleting** purchases and sales: validation, derived totals,
  one rate-history row per entry, and the recompute that follows.
- **Receipt numbers** of sales: `MS<YYYYMMDD>-<supplier>-<NNNN>`.
- **Close-day**, which only sets a flag.
- **The two low-balance conditions**: the dashboard flag and the alert list.
- **The totals folds** of the daily-summary and profit-report endpoints.
- **Three client-side folds** over the same rows: the reports page's grouping
  by date, the daily-summary page's five totals, and the rate-history page's
  buy/sell slots.

Files and modules:

- `records.dfy` (`Records`): the table rows.
- `outcomes.dfy` (`Outcomes`): `Option` and `Result`.
- `text.dfy` (`Text`) and `calendar.dfy` (`Calendar`): the string and date
  rendering the receipt number is built from.
- `daily_summary.dfy` (`DailySummary`): the specification functions of the
  summary table (what ensure, recompute and close leave behind) and their
  lemmas.
- `receipts.dfy` (`Receipts`): receipt text and reading it back.
- `alerts.dfy` (`Alerts`), `summary_totals.dfy` (`SummaryTotals`),
  `reports_page.dfy` (`ReportsPage`) and `rate_history_page.dfy`
  (`RateHistoryPage`): the smaller rules and the client folds.
- `ledger.dfy` (`Bookkeeping`): class `Ledger`. Its fields are the tables and
  the next auto-increment ids. Each handler is a method proved against the
  `DailySummary` functions.

Conventions:

- Amounts are exact `real`s.
- Instants are UTC seconds.
- A Bangkok day is `(t + 25200) / 86400`.
- "Today" and "now" are parameters.
- A supplier's `low_balance_alert` may be NULL: PUT /suppliers/:id
  (backend/index.js:347-353) stores whatever it is sent. The dashboard flag
  reads NULL as 0, while the alert list's SQL comparison with NULL is never
  true, so the two conditions differ there.
- Receipt numbers come from the count of the day's sales still present, so
  deleting an earlier sale of the day lets the next sale repeat the number of
  a live sale (`Bookkeeping.DeleteReusesNumber`).

## Model

| member | source | states |
|---|---|---|
| Calendar.BangkokDayVersusUtcDay | backend/index.js:110 | an instant from 17:00 UTC on belongs to the next Bangkok day (23:30 UTC counts toward tomorrow); earlier instants belong to their UTC day |
| Calendar.CivilFromDays | backend/index.js:18 | the calendar date of a day number has a month in 1..12 and a day in 1..31; the four lemmas below pin it to the Gregorian calendar |
| Calendar.CivilRoundTrip | backend/index.js:18 | the inverse conversion gives back the day number, so distinct days have distinct dates |
| Calendar.EpochDate | backend/index.js:18 | day 0 is 1 January 1970 |
| Calendar.NextDate | backend/index.js:18 | the day after a valid Gregorian date (leap years divisible by 4, except centuries not divisible by 400) is again a valid date |
| Calendar.CivilFromDaysValid | backend/index.js:18 | every day number's date is a valid Gregorian date: its day never exceeds its month's length, with 29 February only in leap years |
| Calendar.CivilSuccessor | backend/index.js:18 | the date of day d + 1 is the next Gregorian date after the date of day d; with the epoch this fixes every day's date |
| Calendar.NextDateDays | backend/index.js:18 | the next date of a valid date is one day number later |
| Calendar.DaysFromCivilInverse | backend/index.js:18 | every valid Gregorian date is the date of its day number, so the conversion reaches every date |
| Calendar.YearText | backend/index.js:18 | `toISOString` writes exactly four year characters for years 0 to 9999 and more otherwise |
| Calendar.IsoDate | backend/index.js:18 | `slice(0, 10)` keeps ten characters: the whole `YYYY-MM-DD` text for years 0 to 9999, and a cut prefix of the longer text otherwise |
| Calendar.CompactDate | backend/index.js:47 | the ISO date with its dashes removed contains no dash |
| Calendar.CompactDateDigits | backend/index.js:47 | for years 0 to 9999 the compact date is eight digits whose value is year·10000 + month·100 + day |
| Calendar.JoinedDigits | backend/index.js:47 | padded year, month and day joined by dashes, with the dashes removed, are eight digits worth year·10000 + month·100 + day |
| Text.NatText | backend/index.js:55 | `String(n)` is a non-empty digit string denoting n, with no leading zero when n ≥ 10 |
| Text.PadStart | backend/index.js:55 | `padStart` gives length max(width, \|s\|), ends with s, and everything before s is the fill character |
| Text.ZeroPadKeepsValue | backend/index.js:55 | zero-padding a digit string keeps it a digit string with the same value |
| Text.PaddedFits | backend/index.js:55 | a number below 10^width, padded to width, is exactly width digits denoting the number |
| Text.Without | backend/index.js:47 | `replace(/-/g, '')` leaves no dash and never lengthens the text |
| Text.WithoutConcat | backend/index.js:47 | removing a character distributes over concatenation |
| Text.SplitAtLast | backend/index.js:55 | splitting at the last separator gives back both parts of a join whose right part has no separator |
| Receipts.ReceiptFields | backend/index.js:55 | reading a receipt back: the last field is ≥ 4 digits worth the sequence number, the middle field is the supplier id, and the rest is "MS" + the compact date |
| Receipts.ReceiptTextInjective | backend/index.js:46-56 | for years 0 to 9999, equal receipt texts mean the same day, supplier and sequence number |
| Receipts.CompactDateInjective | backend/index.js:47 | for years 0 to 9999, different days have different compact dates |
| DailySummary.PurchaseFlow | backend/index.js:105-112 | the day's purchase aggregate is (0, 0) when none of the supplier's purchases falls on that Bangkok day |
| DailySummary.SaleFlow | backend/index.js:114-121 | the day's sale aggregate is (0, 0) when none of the supplier's sales falls on that Bangkok day |
| DailySummary.CountSalesOn | backend/index.js:48-53 | the day's sale count is at most the number of sales |
| DailySummary.PurchaseFlowConcat | backend/index.js:105-112 | the purchase aggregate of two ledger segments is the sum of theirs |
| DailySummary.SaleFlowConcat | backend/index.js:114-121 | the sale aggregate of two ledger segments is the sum of theirs |
| DailySummary.CountSalesConcat | backend/index.js:48-53 | the sale count of two ledger segments is the sum of theirs |
| DailySummary.PurchaseFlowRemove | backend/index.js:463-464 | removing a purchase subtracts exactly its THB total and MMK amount from the aggregate of the day it counts toward; other suppliers' and days' aggregates do not change |
| DailySummary.SaleFlowRemove | backend/index.js:563-564 | removing a sale subtracts exactly its THB amount and MMK total from its day's aggregate; other aggregates do not change |
| DailySummary.CountSalesRemove | backend/index.js:48-54 | deleting a sale lowers the count of the supplier's day it falls on by one and leaves every other count as it was |
| DailySummary.AverageRate | backend/index.js:136-138 | with positive MMK stock, rate × MMK = THB; otherwise the rate is 0 |
| DailySummary.AverageRateWithin | backend/index.js:136-138 | the average over lots bought at rates in [lo, hi] lies in [lo, hi] |
| DailySummary.Recomputed | backend/index.js:128-152 | a recompute keeps the key, the opening balances and the closed flag; it sets the aggregates to the given flows; both closing balances, the average rate and the profit then agree with them |
| DailySummary.RecomputeIgnoresStaleFields | backend/index.js:144-152 | a recompute's result does not depend on the row's previous aggregates or derived fields |
| DailySummary.RecomputeFixpoint | backend/index.js:144-152 | a settled row whose aggregates already match the ledger is left identical |
| DailySummary.PurchaseFlowWithin | backend/index.js:105-112 | when every lot of the day was bought at a rate in [lo, hi], the day's purchased THB lies between lo and hi times its purchased MMK |
| DailySummary.ClosingAvgRateWithin | backend/index.js:136-138 | when the opening stock and the day's purchases cost between lo and hi per MMK, the closing average rate is in [lo, hi] |
| DailySummary.RecomputedAvgRateWithin | backend/index.js:105-138 | the same bound, stated over the ledger that the recompute sums |
| DailySummary.LatestEarlier | backend/index.js:73-79 | gives None exactly when the supplier has no row dated before the date; otherwise it gives an earlier row of that supplier, and no earlier row has a later date |
| DailySummary.OpeningRow | backend/index.js:81-90 | the inserted row has the requested key, zero aggregates and is not closed |
| DailySummary.RolloverCarriesClose | backend/index.js:73-83 | the new row opens with the closing THB, MMK and average rate of the latest earlier row, whatever the gap between the dates |
| DailySummary.FirstDayOpensAtZero | backend/index.js:81-83 | with no earlier row for the supplier, the new row opens at zero |
| DailySummary.Ensured | backend/index.js:59-98 | ensure leaves every existing row unchanged; it adds exactly the rollover row when the key is missing and nothing otherwise |
| DailySummary.UpdatedRows | backend/index.js:101-153 | after a recompute, only today's row for the supplier has changed; the table gains at most that key; the row keeps its key, opening balances and closed flag, holds the ledger's aggregates and is settled |
| DailySummary.UpdateFreshIsNoop | backend/index.js:144-152 | recomputing a row that already matches the ledger changes nothing |
| DailySummary.UpdateIdempotent | backend/index.js:101-153 | after a recompute the row matches the ledger, and a second recompute with no ledger change leaves the table identical |
| DailySummary.EnsureThenUpdate | backend/index.js:101-103 | an ensure right before a recompute adds nothing the recompute does not |
| DailySummary.FreshPreserved | backend/index.js:150 | recomputing one supplier leaves another supplier's up-to-date row identical and up to date |
| DailySummary.UpdatedForAll | backend/index.js:246-248 | after ensure+recompute for every listed supplier, each listed supplier's row is up to date, and rows of other days are untouched |
| DailySummary.UpdatedForAllStep | backend/index.js:246-248 | recomputing one more supplier keeps the earlier suppliers' rows up to date |
| DailySummary.UpdatedForAllSnoc | backend/index.js:246-256 | processing supplier i applies one recompute to the table and makes its row up to date; rows of the suppliers already processed keep their values |
| DailySummary.UpdatedKeysMatch | backend/index.js:86-90 | ensure and recompute store every row under its own supplier and date |
| DailySummary.UpdatedForAllKeysMatch | backend/index.js:246-248 | the same holds after the dashboard's sweep |
| DailySummary.ClosedRows | backend/index.js:643-646 | close-day keeps the table's keys; when the row exists it is flagged closed at `now` and keeps every balance, aggregate, rate and profit; no other row changes |
| DailySummary.LatestEarlierByKeys | backend/index.js:73-79 | the rollover source depends on the table's keys only |
| DailySummary.OpeningRowIgnoresClose | backend/index.js:643-646 | closing a day does not change the opening balances a later new row gets |
| DailySummary.CloseIsAdvisory | backend/index.js:643-646 | closing and recomputing commute: a closed row is still recomputed |
| DailySummary.RecomputeCommutesWithClose | backend/index.js:643-646 | flagging a row closed and recomputing it commute |
| DailySummary.PurchaseMovesToday | backend/index.js:438-447 | a purchase on today's Bangkok day raises today's purchased and closing THB by its total and its MMK figures by its amount; sold figures stay; a purchase on another day leaves today's row as it was |
| DailySummary.SaleMovesToday | backend/index.js:517-526 | a sale on today's Bangkok day raises today's sold THB and MMK and lowers both closing balances by the same; the average rate and purchased figures stay; a sale on another day leaves today's row as it was |
| DailySummary.PastDeleteLeavesStaleRow | backend/index.js:463-464 | deleting a purchase from an earlier day recomputes only today's row; the purchase's own day keeps the deleted lot in its figures and no longer matches the ledger |
| Receipts.DateValueInjective | backend/index.js:47 | a date value year·10000 + month·100 + day determines year, month and day |
| Alerts.TodayRow | backend/index.js:774 | the LEFT JOIN finds a row exactly when the supplier has one for today, and then it is that row |
| Alerts.ThresholdNumber | backend/index.js:259 | `Number(low_balance_alert)` is the threshold, or 0 when it is NULL |
| Alerts.AlertOf | backend/index.js:772 | an alert entry carries the supplier's id, name and threshold; its balance is NULL exactly when there is no row for today, and otherwise today's closing THB |
| Alerts.LowBalanceAlerts | backend/index.js:771-776 | every entry comes from an alerted supplier, and every alerted supplier (no row today, or closing THB strictly below a non-NULL threshold) has its entry |
| Alerts.AlertsOnePerSupplier | backend/index.js:771-776 | the list has exactly as many entries as there are alerted suppliers |
| Alerts.MissingRowAlerts | backend/index.js:775 | a supplier with no row for today is always listed, with a NULL balance |
| Alerts.AlertMatchesFlag | backend/index.js:259 | when today's row exists and the threshold is set, being in the alert list is the same as the dashboard flag; with a NULL threshold the supplier is never listed, while the flag is `closing_thb < 0` |
| SummaryTotals.TotalsAreFieldSums | frontend/app/daily-summary/page.js:67-73 | each of the five totals is the sum of its field over the rows; the backend's reduce at backend/index.js:617-629 is the same fold |
| SummaryTotals.EmptyTotals | frontend/app/daily-summary/page.js:73 | an empty list totals to zero in all five fields, and in the report's three |
| SummaryTotals.SumOfPermutation | frontend/app/daily-summary/page.js:67-73 | a field's sum is the same for any reordering of the rows |
| SummaryTotals.TotalsOrderIndependent | frontend/app/daily-summary/page.js:67-73 | the five totals do not depend on row order |
| SummaryTotals.TotalsBalance | frontend/app/daily-summary/page.js:68-71 | if each row's closing = opening + purchased − sold, the totals satisfy the same equation |
| SummaryTotals.TotalsProfit | frontend/app/daily-summary/page.js:69-72 | if each row's profit = purchased − sold, total profit = total purchased − total sold |
| SummaryTotals.ReportTotalsAreFieldSums | backend/index.js:827-831 | the report's three totals are the purchased, sold and profit sums |
| SummaryTotals.ReportTotalsAgree | backend/index.js:827-831 | on the same rows, the report totals equal the corresponding daily totals |
| ReportsPage.OnDate | frontend/app/reports/page.js:76 | a date's rows come from the input, have that date, and are no more than the input |
| ReportsPage.OnDateSnoc | frontend/app/reports/page.js:76 | one more input row is appended to its own date's rows only |
| ReportsPage.GroupForSnoc | frontend/app/reports/page.js:73-76 | one more row changes only its own date's group, adding its three fields and appending it |
| ReportsPage.GroupForOwnDate | frontend/app/reports/page.js:73-76 | the row's own group gains its fields and the row at the end |
| ReportsPage.OnAbsentDate | frontend/app/reports/page.js:70-72 | a date seen in no row has no rows, so its group starts at zero with an empty list |
| ReportsPage.DatesSnoc | frontend/app/reports/page.js:70-72 | one more row adds exactly its date to the dates present |
| ReportsPage.GroupStep | frontend/app/reports/page.js:69-77 | one reduce step keeps the invariant: one group per date seen, each equal to the date's sums and rows so far |
| ReportsPage.GroupedIsGroupFor | frontend/app/reports/page.js:68-78 | the reduce yields one group per date present and none for other dates; each holds the date's purchased, sold and profit sums and its rows in input order |
| ReportsPage.GroupByDate | frontend/app/reports/page.js:68-78 | the in-place reduce yields exactly that: keys are the dates present, and each group equals the date's sums and rows in order |
| ReportsPage.GroupProfit | frontend/app/reports/page.js:73-75 | if every row's profit is purchased − sold, every group's profit is its purchased − sold |
| ReportsPage.GroupedCountSnoc | frontend/app/reports/page.js:76 | one more row adds one to the group count of each listed occurrence of its date |
| ReportsPage.GroupedSumSnoc | frontend/app/reports/page.js:73-75 | one more row adds its field to the groups' sum when its date is listed once |
| ReportsPage.GroupsPartitionRows | frontend/app/reports/page.js:68-78 | every row lands in exactly one group: the group sizes add up to the number of rows |
| ReportsPage.GroupedSumIsTotal | frontend/app/reports/page.js:73-75 | the groups' sums of a field add up to its sum over all rows |
| ReportsPage.MapMatchesGrouped | frontend/app/reports/page.js:68-78 | counting and summing the reduce's own groups over a listing of dates gives the per-date counts and sums |
| ReportsPage.GroupByDateCoversRows | frontend/app/reports/page.js:68-78 | listing each date of the reduce's result once, its groups hold every row exactly once, and their sums of any field add up to that field's sum over all rows |
| ReportsPage.GroupsAgreeWithReportTotals | frontend/app/reports/page.js:73-75 | the groups' purchased, sold and profit add up to the backend report totals at backend/index.js:827-831 |
| RateHistoryPage.Assign | frontend/app/rate-history/page.js:84 | `acc[date][rate_type] = s` fills exactly the slot of the row's type and leaves the other slot as it was |
| RateHistoryPage.LastOf | frontend/app/rate-history/page.js:84 | a slot is empty exactly when no row of that date and type exists; otherwise it holds such a row from the input |
| RateHistoryPage.LastOfSnoc | frontend/app/rate-history/page.js:84 | a later row of the same date and type replaces the slot; other rows leave it |
| RateHistoryPage.SlotStep | frontend/app/rate-history/page.js:80-85 | one reduce step keeps the invariant: entries exactly for the dates seen, each with the last buy row and the last sell row so far |
| RateHistoryPage.GroupStats | frontend/app/rate-history/page.js:79-86 | one entry per date present and none for absent dates; each slot holds the last row of its date and type, or null |
| RateHistoryPage.SlotsOnlySeeOwnDate | frontend/app/rate-history/page.js:81-84 | a date's entry depends only on the rows of that date |
| RateHistoryPage.SameKeySameRow | backend/index.js:724 | with at most one row per (date, rate type), two rows with the same date and type are the same row |
| RateHistoryPage.NoRowLost | frontend/app/rate-history/page.js:80-86 | with unique (date, type) keys, every row sits in its date's entry in its type's slot |
| RateHistoryPage.SlotsOrderIndependent | frontend/app/rate-history/page.js:80-86 | with unique keys, the entries do not depend on the input order |
| Bookkeeping.NoteOrNull | backend/index.js:440 | `note \|\| null` keeps a non-empty note and stores an absent or empty one as NULL |
| Bookkeeping.NewPurchase | backend/index.js:432-441 | the inserted purchase has the given id and time, the request's supplier (non-zero), MMK amount and rate; total_thb = the request's amount × the request's rate, with a non-zero rate; the note is `note \|\| null` |
| Bookkeeping.NewSale | backend/index.js:509-520 | the inserted sale has the given id, time and receipt, the request's supplier, customer name (non-empty), THB amount and rate; total_mmk = the request's amount / the request's non-zero rate; the note is `note \|\| null` |
| Bookkeeping.BuyObservation | backend/index.js:444 | a purchase's rate-history row is a buy for its supplier at its rate, for its MMK amount and its THB total, recorded at its time |
| Bookkeeping.SellObservation | backend/index.js:523 | a sale's rate-history row is a sell for its supplier at its rate, for its MMK total and its THB amount, recorded at its time |
| Bookkeeping.FindPurchase | backend/index.js:458-459 | gives None exactly when no purchase has the id; otherwise gives an index holding that id |
| Bookkeeping.FindSale | backend/index.js:558-559 | gives None exactly when no sale has the id; otherwise gives an index holding that id |
| Bookkeeping.PurchaseIdsAppend | backend/index.js:438-441 | inserting with the next auto-increment id keeps ids increasing and below the next id |
| Bookkeeping.SaleIdsAppend | backend/index.js:517-520 | the same for sales |
| Bookkeeping.PurchaseIdsRemove | backend/index.js:463 | deleting a purchase keeps the remaining ids increasing |
| Bookkeeping.SaleIdsRemove | backend/index.js:563 | deleting a sale keeps the remaining ids increasing |
| Bookkeeping.NthSaleGetsN | backend/index.js:48-54 | because the count is taken before the insert, the Nth sale still present for a supplier's Bangkok day gets sequence number N |
| Bookkeeping.DeleteReusesNumber | backend/index.js:48-54 | deleting an earlier sale of a supplier's day makes the next receipt of that day repeat the number of the live sale that holds the day's current count |
| Bookkeeping.CardsShowSnoc | backend/index.js:256-273 | one more card keeps each card showing its supplier, that supplier's row for today and the strict low-balance flag |
| Bookkeeping.Ledger.EnsureSummary | backend/index.js:59-98 | the table becomes `Ensured` (existing row untouched, or exactly the rollover row inserted), and the returned row is the table's row for the key |
| Bookkeeping.Ledger.UpdateDailySummary | backend/index.js:101-153 | the table becomes `UpdatedRows` of the current ledger; the schema invariants are kept |
| Bookkeeping.Ledger.RecordRateHistory | backend/index.js:155-161 | exactly one observation is appended; earlier ones are unchanged |
| Bookkeeping.Ledger.GenerateReceiptNo | backend/index.js:46-56 | the receipt names today and the supplier; its sequence number is the day's existing sale count plus one |
| Bookkeeping.Ledger.InsertPurchase | backend/index.js:438-447 | the purchase is appended, its buy observation is appended, the next id advances, and today's row is recomputed from the new ledger |
| Bookkeeping.Ledger.AddPurchase | backend/index.js:423-454 | a request missing a truthy supplier, amount or rate is rejected with nothing written; otherwise the purchase is inserted with the next id and its total, one buy observation is appended, and the table equals a recompute of today from the new ledger; sales are untouched |
| Bookkeeping.Ledger.InsertSale | backend/index.js:517-526 | the sale is appended, its sell observation is appended, the next id advances, and today's row is recomputed from the new ledger |
| Bookkeeping.Ledger.AddSale | backend/index.js:500-533 | a request missing a truthy supplier, customer name, amount or rate is rejected with nothing written; otherwise the sale gets receipt (today, supplier, count before insert + 1), the next id and its MMK total; one sell observation is appended; today's row is recomputed; purchases are untouched |
| Bookkeeping.Ledger.DeletePurchase | backend/index.js:456-471 | an unknown id gives NotFound and changes nothing; otherwise exactly that purchase is removed and the supplier's today row (not the purchase's own day) is recomputed |
| Bookkeeping.Ledger.DeleteSale | backend/index.js:556-571 | an unknown id gives NotFound and changes nothing; otherwise exactly that sale is removed and the supplier's today row is recomputed |
| Bookkeeping.Ledger.CloseDay | backend/index.js:638-653 | the table becomes `ClosedRows`: today's row, if any, is flagged closed at `now`; nothing is inserted or recomputed |
| Bookkeeping.Ledger.RefreshToday | backend/index.js:247-256 | ensure and recompute of one supplier leave the table equal to `UpdatedRows`, and the row read back is the table's row for today |
| Bookkeeping.Ledger.Dashboard | backend/index.js:232-282 | the table ends as `UpdatedForAll` over the suppliers; there is one card per supplier with its refreshed row for today; each flag is `closing_thb < Number(low_balance_alert)`, and agrees with the alert list's condition whenever the threshold is set |

## Left out

- The wall-clock helpers (backend/index.js:12-19) depend on the host time zone. They are replaced by the parameters `today` (a Bangkok day number) and `now` (a UTC instant). Within one handler the model uses one `today`. The source reads the clock again inside `updateDailySummary`, so the ensure and the recompute could straddle midnight; the model does not capture that.
- IEEE floating point and the `Number`/`parseFloat` conversions: amounts are exact reals, and rounding is not modelled.
- Request fields arrive already typed (`Option<nat>`, `Option<real>`, `Option<string>`). JavaScript truthiness is modelled: absent, `0` and `""` are missing. A numeric field sent as a string (where `"0"` is truthy) is not modelled.
- Concurrency is not modelled; the operations run sequentially. This covers the `Promise.all` over suppliers in the dashboard (backend/index.js:246), the duplicate-insert race in ensure, and the count-then-insert race in receipt numbering.
- Database defaults for the columns the INSERT at backend/index.js:87-90 leaves out are assumed to be zero, not closed and NULL, because the schema is not part of this model.
- Foreign-key failures (an unknown supplier id on insert) are not modelled: the insert succeeds.
- `recorded_at` of a rate-history row is the database's insert time. The model uses the entry's own `now`.
- Sale.receiptNo holds the receipt number as its three parts (Bangkok day, supplier, sequence number) rather than as text. `Receipts.ReceiptText` writes the text, and `Receipts.ReceiptTextInjective` shows that for years 0 to 9999 the text determines the parts. The format follows the code: `MS<YYYYMMDD>-<supplier>-<NNNN>`, with a dash between the date and the supplier, and the sequence number padded to at least (not exactly) four digits.
- Receipts.ReceiptTextInjective: it is stated only for years 0 to 9999, because outside that range `toISOString` writes a signed six-digit year.
- Alerts.LowBalanceAlerts: its contract states membership in both directions but not the row order; the SQL has no ORDER BY.
- The dashboard's supplier order and its card-order join (backend/index.js:238-243) are not modelled: the supplier list is a parameter. The returned card copies the row's fields; the model returns the row itself.
- The reports page mutates the group object inside the accumulator. `ReportsPage.GroupByDate` updates a copy and writes it back, so aliasing is not modelled.
- The rows the folds take (report query, today's summaries, rate statistics) are parameters. The SQL that produces them (backend/index.js:604-615, 701-726, 788-824) is not modelled, except for the uniqueness of (date, rate type) that the GROUP BY at backend/index.js:724 yields (`RateHistoryPage.KeysUnique`).
- HTTP status codes and messages are reduced to the `Failure` datatype (`MissingFields`, `NotFound`). Server errors are not modelled.
- Read-only list endpoints, CSV export, authentication, supplier CRUD, settings, card order and all React rendering are outside the modelled core.
