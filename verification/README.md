# fs25accounting bookkeeping core, modelled in Dafny

fs25accounting keeps the books of a Farming Simulator 25 farm run as a
company. Its state is an SQLite database of tables:
- fiscal years and their monthly periods;
- revenue and expense transactions;
- assets, bought outright or through a lease, and depreciated straight-line;
- leases, loans and loan payments;
- dividends and valuation snapshots;
- a table of settings.

Derived figures are computed over those tables by closed-form sums: cash,
net book value, debt, lease obligations, valuation, share price and net
profit. The React pages turn button presses into table writes: buy and sell
assets, create and settle leases and loans, post transactions, open and
close months, and run the year-end closing.

This project models that core as pure functions over an immutable `State`
record that holds one sequence per table plus the settings.
- Money is `real`.
- `Math.round(x)` is `Floor(x + 1/2)` (`Base.JsRound`). `round2` is the same at cent precision (`Base.Round2`).
- JavaScript truthiness of an id or a year count is `Base.Truthy`: `None` and `0` are falsy.
- A row insert takes the fresh id `1 + max id` (`Tables.NextId`).
- The "current" fiscal year or month is the open row with the largest id (`Tables.LatestWhere`).
- Every handler returns an `Outcome`:
  - `Applied(state)` when it writes;
  - `Rejected(reason)` for each early `return` of the source, with the state untouched.

Modules, following the program's structure:

| module | file | what it holds |
|---|---|---|
| `Base` | base.dfy | Option, rounding, `Sum`, `Filter` and the sum lemmas |
| `Tables` | tables.dfy | the rows, the settings with their defaults, `getMonthName`, the current-row selection, the single-row inserts and updates of `src/db/queries.ts` |
| `Depreciation` | depreciation.dfy | `bookPeriodDepreciation` and its invariants |
| `AssetConfig` | depreciation.dfy | `getAssetTypeConfig` |
| `Ledger` | ledger.dfy | `sumTransactions` with its SQL join, `sumDepreciation`, `sumTransactionsByCategory`, the `total*` aggregates |
| `Calculations` | calculations.dfy | `src/lib/calculations.ts` |
| `AssetCommands` | assets.dfy | the Assets page |
| `Leases` | leases.dfy | the annuity, the Leases page, the monthly installment run |
| `Loans` | loans.dfy | the Loans page and the payment ledger |
| `Periods` | periods.dfy | `initializeFarm`, snapshots, Open Month and Close Month, the lifecycle invariant |
| `YearEnd` | yearend.dfy | the year-end preview and `finalizeYearEnd` |
| `BalanceSheet` | balancesheet.dfy | the two sides of the Balance Sheet page, and which commands keep them equal |
| `IncomeStatement` | incomestatement.dfy | row classification and the statement arithmetic |
| `TransactionsPage` | transactions.dfy | category grouping, search, Add Transaction |

The balance-sheet lemmas state "keeps the balance" as preserving
`Imbalance` = valuation − equity, which is the page's assets side minus its
liabilities side. Some commands do not keep it: a sale at a price different
from net book value shifts it by the gain or loss, because the cash formula
counts both the proceeds and the gain row. `BalanceSheet.SaleShiftsBalance`
states that shift exactly, as the code behaves.

## Model

| member | source | states |
|---|---|---|
| Base.JsRound | src/components/Loans.tsx:58 | `Math.round`: a whole amount within ½ of its argument, halves rounding up |
| Base.Round2 | src/components/Leases.tsx:91 | rounding to the cent: whole cents within half a cent of the argument |
| Tables.MonthName | src/db/queries.ts:155-163 | a month name, when there is one, is one of the twelve names of the table |
| Tables.MonthNameCycle | src/db/queries.ts:161-163 | for a start month 1..12 the index is in bounds: index 0 names the start month itself and names repeat every 12 periods |
| Tables.MonthNameOutOfRange | src/db/queries.ts:161-163 | out-of-range start months follow JavaScript `%`: a start month past 12 names what the one 12 lower names; a negative position has a name (January) exactly when it is a multiple of 12; any non-negative position has a name |
| Tables.LatestWhere | src/db/queries.ts:236-238 | the current row is absent exactly when no row qualifies; otherwise it is a qualifying row with the largest id |
| Tables.EarliestWhere | src/components/Periods.tsx:171 | the first open month found is absent exactly when none is open; otherwise it is an open month with the smallest id |
| Tables.PeriodYear | src/db/queries.ts:541-547 | the year of a period found by id; none exactly when no period has the id |
| Tables.FindCategory | src/components/Loans.tsx:65 | a category with the name (and type, when given); none exactly when there is no such category |
| Tables.FindCategoryFirst | src/components/Loans.tsx:65 | the unordered `SELECT` is read as returning the first matching category in table order: whenever no earlier category matches, the one at that position |
| Tables.FindById | src/components/Assets.tsx:75 | the lookup of an asset, lease or loan by id: a row with the id, and none exactly when no row has it |
| Tables.FindByIdFirst | src/components/Assets.tsx:75 | `find` returns the first row with the id: whenever no earlier row has it, the row at that position |
| Tables.PeriodsOf | src/db/queries.ts:250-255 | every period listed for a (truthy) year belongs to that year |
| Tables.PeriodsOfSelects | src/db/queries.ts:250-255 | for a truthy year id exactly that year's periods are listed (each listed period is a stored one of that year, and every stored period of that year is listed); for id 0 every period is listed |
| Tables.InsertTransactionFresh | src/db/queries.ts:299-314 | the new transaction's id is greater than every existing id; looking that id up returns the row as written; every other id still finds what it found before; no other table changes |
| Tables.InsertAssetFresh | src/db/queries.ts:330-344 | the new asset gets an id above every existing one and reads back unsold with nothing depreciated; every other lookup and table is unchanged |
| Tables.InsertPeriodFresh | src/db/queries.ts:257-263 | the new month gets an id above every existing one, reads back open with nothing booked, and becomes the current month; every other lookup and table is unchanged |
| Tables.InsertFiscalYearFresh | src/db/queries.ts:236-242 | the new year gets an id above every existing one, reads back open with its opening cash, and becomes the current year; every other lookup and table is unchanged |
| Periods.CloseOneYear | src/db/queries.ts:244-246 | with unique year ids the close stamps the closing date on exactly the one year and leaves every other year as it was |
| Tables.InsertDividendFresh | src/db/queries.ts:499-512 | the new dividend gets an id above every existing one and reads back as written; every other lookup and table is unchanged |
| Tables.InsertSnapshotFresh | src/db/queries.ts:520-536 | the new snapshot gets an id above every existing one and reads back holding the figures given; every other lookup and table is unchanged |
| Depreciation.ChargeBounds | src/db/queries.ts:364-367 | for a sound asset (0 ≤ accumulated ≤ price) a booking's charge lies between 0 and the remaining net book value |
| Depreciation.BookPeriodDepreciation | src/db/queries.ts:359-372 | each row gains exactly its own capped charge; the total returned is the sum of the per-asset charges |
| Depreciation.BookLeavesSkippedAssets | src/db/queries.ts:361-363 | sold assets and assets without (or with 0) depreciation years are left as they are; a 0-month booking changes nothing and returns 0 |
| Depreciation.BookKeepsSound | src/db/queries.ts:359-372 | 0 ≤ accumulated ≤ price is preserved; accumulated never falls; the total is ≥ 0 and equals the rise in total accumulated depreciation |
| Depreciation.ChargeAdditive | src/db/queries.ts:364-369 | charging m months and then n months charges what m + n months charge at once |
| Depreciation.BookAdditive | src/db/queries.ts:359-372 | booking m months then n months gives the same rows as booking m + n months, and the two totals add up to the combined total |
| Depreciation.MonthlyEqualsOnce | src/db/queries.ts:359-372 | k single-month bookings give the rows and the total of one k-month booking |
| Depreciation.ChargeOverLife | src/db/queries.ts:364-367 | a fresh depreciable asset with n years is charged exactly its price over 12·n months |
| Depreciation.FullyDepreciatedAfterLife | src/db/queries.ts:359-372 | after 12·n monthly bookings a fresh asset is fully depreciated (net book value 0), and every later booking charges it 0 |
| AssetConfig.DepreciationYears | src/lib/assetConfig.ts:5-15 | the depreciation years are absent exactly for land |
| AssetConfig.DefaultYears | src/lib/assetConfig.ts:6-8 | without settings: vehicle 5, implement 5, building 10 |
| AssetConfig.OwnKeyOnly | src/lib/assetConfig.ts:6-12 | each asset type reads its own setting key and no other |
| AssetConfig.LandNeverDepreciated | src/lib/assetConfig.ts:13 | a land asset created with its configured years is never changed by a booking |
| Ledger.JoinCountUnique | src/db/queries.ts:541-547 | with unique period ids a transaction joins at most one period, and joins one exactly when its period belongs to the year |
| Ledger.SumTransactionsSelects | src/db/queries.ts:540-563 | against a reference filter: empty table gives 0; without filters it sums every row of the type; a period filter sums the rows of that month; a year filter (unique period ids) sums the rows whose month is in that year |
| Ledger.YearFilterFirst | src/db/queries.ts:540-563 | with a truthy year id the period argument is ignored |
| Ledger.AppendTransaction | src/db/queries.ts:540-563 | a new row adds exactly its own contribution to every scoped total |
| Ledger.SumDepreciationSelects | src/db/queries.ts:374-396 | the total is the booked depreciation of the periods in scope; it is ≥ 0 when every booking is, and 0 with no periods |
| Ledger.PeriodFilterFirst | src/db/queries.ts:374-396 | with a truthy period id the year argument is ignored |
| Ledger.GroupRowsSum | src/db/queries.ts:565-603 | grouping by category gives distinct keys, and the group totals add up to the scoped total |
| Ledger.GroupRowsPerKey | src/db/queries.ts:565-603 | every group's total is the sum of its own category's rows; a category without a group has rows summing to 0 |
| Ledger.InsertDescendingOrder | src/db/queries.ts:579-600 | inserting into a descending list keeps it descending |
| Ledger.InsertDescendingKeys | src/db/queries.ts:579-600 | inserting a new key keeps the keys distinct |
| Ledger.InsertDescendingSum | src/db/queries.ts:579-600 | inserting adds exactly the new row's total |
| Ledger.SortDescendingSound | src/db/queries.ts:579-600 | sorting gives a descending list with the same keys and the same sum |
| Ledger.SumTransactionsByCategory | src/db/queries.ts:565-603 | the rows are ordered by total, descending, with one row per category, and add up to `sumTransactions` of the same scope |
| Ledger.ByCategoryTotals | src/db/queries.ts:565-603 | each row totals its own category's in-scope rows and carries the name and icon of the joined category (None when the join finds none); every category with an in-scope row of the type is listed, and an unlisted category sums to 0 |
| Ledger.AssetTotalsSelect | src/db/queries.ts:635-649 | purchases count only assets not from a lease; sales count only assets with a sale price |
| Calculations.TotalsCountActiveRows | src/lib/calculations.ts:26-39 | total NBV counts only unsold assets, debt only active loans, obligations only active leases |
| Calculations.EmptyStoreWorth | src/lib/calculations.ts:41-79 | a store with no rows has cash and valuation equal to the initial capital |
| Calculations.CashWithTransaction | src/lib/calculations.ts:41-71 | a revenue row raises cash by its amount and an expense row lowers it |
| Calculations.SharePrice | src/lib/calculations.ts:81-86 | 0 without shares, otherwise price × shares = valuation |
| Calculations.NetProfitOfYear | src/lib/calculations.ts:92-97 | for a real year, the year's revenue rows minus its expense rows minus the depreciation booked on its periods; for id 0, the all-time figure |
| Calculations.BuybackEffectivePrice | src/lib/calculations.ts:107-109 | at least the minimum and the share price, and equal to one of them |
| Calculations.DefaultBuybackMin | src/lib/calculations.ts:99-104 | a missing initial price counts as 100 and a missing multiplier as 4, so the minimum is 400 with neither stored and the effective buyback price is then at least 400 |
| AssetCommands.BuyAsset | src/components/Assets.tsx:42-60 | rejects without an open month, with an empty name, or with an unparsed or ≤ 0 price, and applies exactly otherwise; the new asset is not from a lease and has its type's years |
| AssetCommands.BuyKeepsValuation | src/components/Assets.tsx:49-50 | cash falls by the price, NBV rises by it, valuation is unchanged |
| AssetCommands.BoughtLandIsNotDepreciated | src/components/Assets.tsx:49-50 | land bought through the form is never changed by a booking |
| AssetCommands.SellAsset | src/components/Assets.tsx:62-99 | rejects without an open month, without a selection, or with an unparsed or negative price; applies exactly when all three hold and the asset exists; only the asset rows and transactions change |
| AssetCommands.SaleGainOrLoss | src/components/Assets.tsx:78-91 | above NBV one revenue row of sp − nbv is appended; below NBV one expense row of nbv − sp; at par nothing |
| AssetCommands.SaleProfitEffect | src/components/Assets.tsx:78-91 | the all-time profit moves by exactly sp − nbv |
| AssetCommands.ZeroPriceAccepted | src/components/Assets.tsx:65-66 | a sale at price 0 is accepted |
| AssetCommands.SellOneAsset | src/db/queries.ts:346-348 | with unique ids the sale rewrites exactly the one row |
| AssetCommands.SaleRowsEffect | src/db/queries.ts:346-348 | marking an unsold asset sold adds the price to cash and takes its NBV off the asset total |
| AssetCommands.SaleValuationEffect | src/components/Assets.tsx:70-99 | NBV falls by nbv; cash rises by sp plus the posted gain or loss; valuation moves by 2·(sp − nbv) |
| AssetCommands.DepreciationSchedule | src/components/Assets.tsx:101-111 | empty without years; otherwise one row per year, row y being year y of the straight line |
| AssetCommands.ScheduleShape | src/components/Assets.tsx:101-111 | NBV never negative and never rising (for a non-negative price); accumulated = price·y/n; the last row is fully depreciated |
| AssetCommands.ScheduleMatchesBooking | src/components/Assets.tsx:101-111 | the schedule's accumulated value after y years is what booking 12·y months charges a fresh asset |
| Leases.ComputeMonthly | src/components/Leases.tsx:30-39 | 0 when months ≤ 0; at rate 0, payment × months + final = financed; defined for every positive rate |
| Leases.MonthlyOver | src/components/Leases.tsx:31-39 | priced over a month count that need not be whole: 0 when it is ≤ 0, payment × months + final = financed at rate 0, and the whole-month annuity when the count is whole |
| Leases.AmortizeClosedForm | src/components/Leases.tsx:37-38 | the balance after n months of interest-then-payment in closed form |
| Leases.AmortizeZeroRate | src/components/Leases.tsx:36 | at rate 0 the balance falls by the payment each month |
| Leases.AnnuityRoundTrip | src/components/Leases.tsx:37-38 | paying the annuity for `months` months leaves exactly the final payment |
| Leases.MonthlyRateZero | src/components/Leases.tsx:35-36 | the monthly rate is 0 exactly for a 0 % annual rate |
| Leases.ComputeMonthlyAmortizes | src/components/Leases.tsx:30-39 | the computed payment, made every month, amortizes the financed amount down to the final payment, at any rate |
| Leases.LeaseInterest | src/components/Leases.tsx:154-156 | a whole amount within ½ of the month's interest on the balance |
| Leases.SplitCoversInstallment | src/components/Leases.tsx:154-160 | interest plus capital is the installment to within half a cent |
| Leases.UpdateOneLease | src/db/queries.ts:429-439 | with unique ids the update rewrites exactly one row |
| Leases.CapitalPaidTracksPayments | src/db/queries.ts:429-431 | from remaining = total − down, capital paid = down + Σ capital parts; each payment counts once; the total value never changes |
| Leases.LeaseRowValuation | src/lib/calculations.ts:36-79 | replacing a lease row moves cash by the change in capital paid and obligations by the change in active balance |
| Leases.CreateLease | src/components/Leases.tsx:70-106 | each rejection in the source's order, a duration rejected only when it is ≤ 0 years; applies exactly for an open month, a type, a name, a positive price and duration and a finite installment; writes one lease priced over years × 12 months, storing Math.round(years × 12) months and remaining = price − down, and one asset at full price linked to it |
| Leases.CreateLeaseKeepsValuation | src/components/Leases.tsx:82-106 | cash falls by the down payment; NBV rises by the price; obligations rise by price − down; valuation is unchanged |
| Leases.CreatedLeaseTerms | src/components/Leases.tsx:88-95 | for a whole number of months the stored duration is years × 12, the installment is the annuity rounded to cents, and that annuity leaves exactly the final payment owed |
| Leases.ShortLeaseStoredEmpty | src/components/Leases.tsx:88-90 | a lease is stored with 0 months exactly when years × 12 is under one half, and such a lease is never due an installment |
| Leases.HandlePurchase | src/components/Leases.tsx:108-118 | rejects without an open month; applies exactly for an existing lease; only the lease table changes |
| Leases.BuyOutPaysRemaining | src/components/Leases.tsx:108-118 | cash and obligations both fall by the remaining balance; valuation is unchanged |
| Leases.AssetOfLease | src/db/queries.ts:354-356 | the first asset created from the lease, or none |
| Leases.HandleReturn | src/components/Leases.tsx:120-143 | applies exactly for an existing lease and marks it returned; with no asset from the lease, or one whose sold date is truthy, nothing else changes; an asset whose sold date is null or "" is sold at 0 today, and a positive book value is appended as one expense of that amount, with nothing else changed |
| Leases.ReturnEffect | src/components/Leases.tsx:120-143 | obligations drop the lease's balance; the asset's NBV leaves; cash falls by the loss posted; the resulting valuation shift is exposed |
| Leases.PayInstallment | src/components/Leases.tsx:154-160 | assumed installment of one lease: only the leases and transactions change |
| Leases.ProcessLeasePayments | src/components/Periods.tsx:56 | assumed run of `months` rounds of installments: the lease count is kept and only the leases and transactions change |
| Leases.InstallmentStep | src/components/Leases.tsx:154-160 | one installment pays exactly that lease once; only leases and transactions change; valuation moves only by the expense posted |
| Leases.InstallmentsPrefix | src/components/Leases.tsx:154-160 | after k installments the first k leases have paid once each and the rest are untouched |
| Leases.LeaseRunAppends | src/components/Periods.tsx:174 | the run keeps the existing transactions in order and only appends |
| Leases.ProcessLeasePaymentsEffect | src/components/Periods.tsx:174 | lease ids are kept and stay unique; only leases and transactions change; valuation moves only by the expense posted; a one-month run is one installment per lease |
| Leases.InstallmentWithinDuration | src/components/Leases.tsx:256 | an installment never takes a lease past its duration, and adds one payment exactly when one is due |
| Leases.OfferedWhenNothingDue | src/components/Leases.tsx:256 | buy-out and return are offered on an active lease exactly when no installment is due; never on a fresh lease |
| Loans.UpdateOneLoan | src/db/queries.ts:466-487 | with unique ids the update rewrites exactly one row |
| Loans.RecordLoanPayment | src/db/queries.ts:466-487 | appends the payment row; only the loan and payment tables change |
| Loans.RecordOnePayment | src/db/queries.ts:476-486 | with unique ids the payment rewrites exactly its own loan, with the payment applied |
| Loans.LoanRowDebt | src/lib/calculations.ts:31-34 | replacing a loan row moves debt by the change in active balance and proceeds by the change in principal |
| Loans.CreateLoan | src/components/Loans.tsx:33-50 | rejects without an open month, or with an empty name or an unparsed principal or rate, and applies exactly otherwise; the loan starts active with remaining = principal and monthly payment 0 |
| Loans.CreateLoanKeepsValuation | src/components/Loans.tsx:33-50 | cash and debt both rise by the principal; valuation is unchanged |
| Loans.LoanInterest | src/components/Loans.tsx:57-59 | a whole amount within ½ of the month's interest on the balance |
| Loans.ShownInterestIsCharged | src/components/Loans.tsx:100-102 | the interest the card shows is the interest the button charges |
| Loans.PayInterest | src/components/Loans.tsx:52-71 | rejects without an open month, for a missing loan, or when the interest is ≤ 0; otherwise one interest-only payment row and one expense row of the same amount |
| Loans.PayInterestEffect | src/components/Loans.tsx:52-71 | the loans are unchanged; cash and valuation fall by exactly the interest |
| Loans.RepayCapital | src/components/Loans.tsx:79-98 | rejects without an open month, a selection, the loan, or a positive amount; pays min(amount, balance) as principal only, with no transaction |
| Loans.RepayCapitalEffect | src/components/Loans.tsx:79-98 | cash falls by the amount paid; debt falls by it (or by the whole balance once paid off); valuation rises by at most a cent |
| Loans.EmptyLedgerSound | src/db/queries.ts:451-487 | a store without loans satisfies the ledger invariant |
| Loans.CreateLoanKeepsLedger | src/db/queries.ts:451-464 | a new loan keeps the invariant (unique ids, payments belong to loans, amount = principal + interest, balance = principal − principal paid) |
| Loans.PaymentKeepsLedger | src/db/queries.ts:466-487 | a payment on an active loan whose amount is principal plus interest keeps the invariant |
| Loans.PayInterestLoanTables | src/components/Loans.tsx:62 | the interest payment writes to the loan tables exactly one interest-only payment |
| Loans.PayInterestKeepsLedger | src/components/Loans.tsx:52-71 | paying interest keeps the invariant |
| Loans.RepayKeepsLedger | src/components/Loans.tsx:79-98 | repaying capital keeps the invariant |
| Periods.DecimalString | src/components/Periods.tsx:190-191 | a non-empty string of decimal digits |
| Periods.DecimalRoundTrip | src/components/Periods.tsx:190-191 | reading the digits back gives the number |
| Periods.InitializeFarmEffect | src/db/queries.ts:178-228 | settings read back as configured, with losses 0; "Year 1" and its first month, named after the start month, are current; the opening snapshot holds the new store's live figures; the lifecycle invariant holds |
| Periods.FiguresIgnorePeriods | src/lib/calculations.ts:41-86 | cash, valuation, share price and total expense do not read the period, year or snapshot tables |
| Periods.BookingMovesNbvOnly | src/db/queries.ts:359-372 | a booking lowers the unsold NBV total by exactly the total booked and leaves purchases and proceeds alone |
| Periods.BookingValuation | src/lib/calculations.ts:73-79 | a booking leaves cash unchanged and lowers valuation by the total booked |
| Periods.CurrentPeriodInCurrentYear | src/components/Periods.tsx:47-60 | under the invariant the current month lies in the current year with nothing booked |
| Tables.LatestIsFresh | src/db/queries.ts:257-263 | a freshly inserted open row, with the next id, becomes the current one |
| Periods.OpenMonth | src/components/Periods.tsx:47-60 | rejected exactly without an open year |
| Periods.OpenMonthEffect | src/components/Periods.tsx:47-60 | the new month is current, in the current year, named by the start month and the year's month count; each lease takes one installment; valuation moves only by the interest posted |
| Periods.OpenMonthKeepsLifecycle | src/components/Periods.tsx:47-60 | opening a month when the button is offered keeps the invariant |
| Periods.CloseMonth | src/components/Periods.tsx:62-79 | rejected exactly without an open month |
| Periods.CloseMonthEffect | src/components/Periods.tsx:62-79 | the snapshot equals the figures after the booking; the month is closed with exactly the month's charge; cash is unchanged; valuation falls by the charge |
| Periods.ClosePeriodOne | src/db/queries.ts:265-267 | with unique ids the close rewrites exactly one row |
| Periods.CloseMonthKeepsLifecycle | src/components/Periods.tsx:62-79 | closing keeps the invariant and leaves no month open |
| YearEnd.ProjectedCharge | src/components/Periods.tsx:96-106 | one unsold asset's projection is exactly what booking charges it |
| YearEnd.ProjectRemainingDepreciation | src/components/Periods.tsx:93-107 | the projection is exactly the total `bookPeriodDepreciation(remaining)` returns, and 0 when no months remain |
| YearEnd.TaxRules | src/components/Periods.tsx:111-117 | tax only on profit beyond the carried losses, at the rate to the cent; none when the profit does not exceed them |
| YearEnd.SuggestedDividendShare | src/components/Periods.tsx:122-126 | the investors' share of a positive after-tax profit to the cent, otherwise 0; the ratio × total shares = investor shares |
| YearEnd.PreviewFigures | src/components/Periods.tsx:111-126 | in the preview no tax is shown unless net profit exceeds the carried losses; the tax is within half a cent of (net profit − losses) × rate; with no such excess, tax, after-tax profit and suggested dividend are all 0; the suggested dividend is within half a cent of after-tax × investor ratio, and 0 when nothing is left after tax |
| YearEnd.PreviewProfit | src/components/Periods.tsx:89-110 | the previewed net profit is the year's `getNetProfit` less the projection, and the projection equals what booking the months not yet closed would charge (0 once twelve or more are closed) |
| YearEnd.LossCarryForward | src/components/Periods.tsx:143-150 | for carried losses ≥ 0 the three branches give max(acc − profit, 0), and the part of the profit not absorbed is the taxable base |
| YearEnd.NegativeLossesKept | src/components/Periods.tsx:143-150 | for a negative carried balance a loss year gives balance − loss, which stays negative while the loss is smaller than the balance, and any profit clears it to 0; this differs from max(acc − profit, 0) exactly when balance < profit < 0 |
| YearEnd.FinalizeYearEnd | src/components/Periods.tsx:128-201 | rejected exactly without an open year |
| YearEnd.EnsurePeriodFacts | src/components/Periods.tsx:131-141 | only the period table changes; afterwards the one open month, in the closing year with nothing booked, is the current month, and the entries go into it |
| YearEnd.CloseActiveFacts | src/components/Periods.tsx:171-183 | among the periods only the active month changes, closed with the remaining depreciation; years, settings, dividends and categories are kept; transactions are only appended |
| YearEnd.CloseActiveMonth | src/components/Periods.tsx:165-186 | with an open month in the year, exactly that month is closed with the charge for the months remaining |
| YearEnd.EnsurePeriodKeepsRemaining | src/components/Periods.tsx:131-141 | opening a month for the entries does not change the count of months the year has left |
| YearEnd.PreviewProjection | src/components/Periods.tsx:93-109 | the previewed projection is the charge for the months the current year has left |
| YearEnd.BeforeClosingKeepsAssets | src/components/Periods.tsx:131-163 | the entries before closing leave the assets alone and change the periods only by opening the entry month |
| YearEnd.FinalizeBooksProjection | src/components/Periods.tsx:93-186 | the entry month is open before closing and is then closed with exactly the depreciation the preview projected |
| YearEnd.PreviewBooked | src/components/Periods.tsx:91 | the previewed booked depreciation is the current year's `sumDepreciation` |
| YearEnd.EnsurePeriodKeepsBooked | src/components/Periods.tsx:131-141 | opening a month for the entries leaves every depreciation total unchanged |
| YearEnd.ClosingBooksProjection | src/components/Periods.tsx:165-186 | closing the year's months adds exactly the previewed projection to the year's recorded depreciation |
| YearEnd.RollOverKeepsBooked | src/components/Periods.tsx:194-196 | the next year's first month has nothing booked, so no depreciation total changes |
| YearEnd.FinalizeRecordsYearDepreciation | src/components/Periods.tsx:96-186 | after year-end closing the closed year's recorded depreciation equals the preview's booked plus projected depreciation |
| YearEnd.CloseYearMonthsFacts | src/components/Periods.tsx:165-186 | afterwards no month is open, period ids stay unique, and the frame is kept |
| YearEnd.CloseOpenYear | src/components/Periods.tsx:188 | closing the one open year leaves none open |
| YearEnd.AppendFreshYear | src/components/Periods.tsx:190-192 | the new year is the only open year and the current one |
| YearEnd.AppendFreshPeriod | src/components/Periods.tsx:194-196 | the new month is the only open month and the current one |
| YearEnd.RollOverClosesYear | src/components/Periods.tsx:188 | every row of the closing year gets the closing date |
| YearEnd.RollOverFacts | src/components/Periods.tsx:188-196 | the invariant holds; "Year n" opened with the cash then held and its first month are current; the closed year's rows are closed; figures are unchanged |
| YearEnd.BeforeClosingFacts | src/components/Periods.tsx:131-163 | the losses setting is updated, a tax row is written exactly when tax > 0, and a dividend row exactly when the amount > 0 |
| YearEnd.FinalizeStages | src/components/Periods.tsx:128-201 | the finalisation is the roll-over of the closing of the entries |
| YearEnd.FinalizeKeepsLifecycle | src/components/Periods.tsx:128-201 | year-end closing keeps the lifecycle invariant |
| YearEnd.FinalizeClosesYear | src/components/Periods.tsx:188 | every row of the closed year is closed |
| YearEnd.FinalizeOpensNextYear | src/components/Periods.tsx:188-196 | "Year n+1" is current, opened with the cash after the closing entries; its first month, named after the start month, is current |
| YearEnd.RollOverFrame | src/components/Periods.tsx:188-196 | the roll-over writes only the year and period tables |
| YearEnd.FinalizeFrame | src/components/Periods.tsx:128-201 | after the entries, settings and dividends are kept and transactions only appended |
| YearEnd.FinalizeRecordsLosses | src/components/Periods.tsx:143-150 | the stored carried losses are the update of the preview's losses by its net profit |
| YearEnd.FinalizeRecordsDividend | src/components/Periods.tsx:159-163 | exactly one mandatory dividend of the year when the amount is positive, none otherwise |
| YearEnd.FinalizeRecordsTax | src/components/Periods.tsx:152-157 | existing transactions are kept; a positive tax is the first row appended, a Corporate Tax expense |
| BalanceSheet.BalanceSheetOf | src/components/BalanceSheet.tsx:10-27 | assets side = cash + NBV; liabilities side = capital + profit − abs(losses) + debt + obligations; their difference is the imbalance; the warning shows exactly when the abs difference > 1 |
| BalanceSheet.PostingEquity | src/components/BalanceSheet.tsx:24 | a row posted to the current month moves equity by its signed amount |
| BalanceSheet.PostingKeepsBalance | src/components/BalanceSheet.tsx:21-27 | posting to the current month keeps the imbalance |
| BalanceSheet.FarmSetupBalances | src/components/BalanceSheet.tsx:21-27 | a new farm balances and shows no warning |
| BalanceSheet.LoanDrawKeepsBalance | src/components/BalanceSheet.tsx:21-27 | a loan draw keeps the imbalance |
| BalanceSheet.InterestKeepsBalance | src/components/BalanceSheet.tsx:21-27 | paying loan interest keeps the imbalance |
| BalanceSheet.RepayKeepsBalance | src/components/BalanceSheet.tsx:21-27 | repaying capital keeps the imbalance to within the cent a paid-off loan drops |
| BalanceSheet.PurchaseKeepsBalance | src/components/BalanceSheet.tsx:21-27 | buying an asset keeps the imbalance |
| BalanceSheet.LeaseCreationKeepsBalance | src/components/BalanceSheet.tsx:21-27 | creating a lease keeps the imbalance |
| BalanceSheet.BuyOutKeepsBalance | src/components/BalanceSheet.tsx:21-27 | a lease buy-out keeps the imbalance |
| BalanceSheet.InstallmentKeepsBalance | src/components/BalanceSheet.tsx:21-27 | a lease installment posted to the current month keeps the imbalance |
| BalanceSheet.CloseMonthKeepsBalance | src/components/BalanceSheet.tsx:21-27 | closing a month keeps the imbalance: the charge leaves NBV and this year's profit together |
| BalanceSheet.SaleEquityEffect | src/components/Assets.tsx:80-90 | a sale moves equity by the posted gain or loss, sp − nbv |
| BalanceSheet.SaleShiftsBalance | src/components/BalanceSheet.tsx:21-27 | a sale shifts the imbalance by exactly sp − nbv |
| IncomeStatement.ClassifyRows | src/components/IncomeStatement.tsx:20-31 | the operating and exceptional lists are the input filtered by name, in input order |
| IncomeStatement.SplitPartitions | src/components/IncomeStatement.tsx:20-31 | every row lands in exactly one list (multisets add up), and the sums add up |
| IncomeStatement.SectionByName | src/components/IncomeStatement.tsx:33-50 | each section is chosen exactly by its name list, with tax before financial before exceptional |
| IncomeStatement.ClassifyExpenseRows | src/components/IncomeStatement.tsx:33-50 | the four lists are the input filtered by section, in input order |
| IncomeStatement.SectionsPartition | src/components/IncomeStatement.tsx:33-50 | every row lands in exactly one of the four sections |
| IncomeStatement.SectionsSum | src/components/IncomeStatement.tsx:52-54 | the section totals add up to the total of the input |
| IncomeStatement.QueryArguments | src/components/IncomeStatement.tsx:122-123 | exactly one of year and period is given: the year for the whole year, the period otherwise |
| IncomeStatement.IncomeStatementOf | src/components/IncomeStatement.tsx:117-146 | the sections re-add to the query totals; net profit = revenue − expenses − depreciation, and equals `getNetProfit` for a whole selected year |
| TransactionsPage.Pick | src/components/Transactions.tsx:44-58 | a picked category has the listed name or a legacy name mapping to it; an exact match is preferred; none exactly when neither exists |
| TransactionsPage.PickAll | src/components/Transactions.tsx:56-59 | no more categories than names; each comes from some name; every name that picks one contributes it |
| TransactionsPage.GroupCategories | src/components/Transactions.tsx:54-61 | at most one group per input group, each with at least one picked category and no more than it names |
| TransactionsPage.GroupsListed | src/components/Transactions.tsx:54-61 | each group shown is an input group with its picked categories, and every input group with a pick is shown |
| TransactionsPage.GroupOrder | src/components/Transactions.tsx:54-61 | the result is the groups, in input order, with the empty ones dropped |
| TransactionsPage.TabKeepsType | src/components/Transactions.tsx:78-84 | a tab never offers a category of the other type |
| TransactionsPage.Lower | src/components/Transactions.tsx:85 | same length, each character lowered |
| TransactionsPage.LowerIdempotent | src/components/Transactions.tsx:85 | lowering twice is lowering once |
| TransactionsPage.Includes | src/components/Transactions.tsx:169-171 | true exactly when the part occurs at some position |
| TransactionsPage.Visible | src/components/Transactions.tsx:169-171 | a category is shown exactly when its lowered name contains the lowered search; an empty search shows all |
| TransactionsPage.SearchIgnoresCase | src/components/Transactions.tsx:169-171 | searches that lower alike show the same categories |
| TransactionsPage.AddTransaction | src/components/Transactions.tsx:95-109 | rejects without an open month, a category, or a parsed positive amount; otherwise one row of the category's type and name |
| TransactionsPage.AddTransactionEffect | src/components/Transactions.tsx:95-109 | cash moves by the signed amount; the month's total of that type grows by it; under the invariant the imbalance is kept |

## Left out

- Persistence: the sql.js database, IndexedDB, migrations, import/export/reset and every `persistDatabase` call. The model is a value of type `State`.
- Presentation: the React state, dialogs and confirmations, charts, formatting, and the dashboard and shares pages, which only re-display the derived figures. A button's visibility appears only as a stated precondition (`OpenMonthOffered`, `CloseMonthOffered`, `TerminalActionsOffered`).
- Seed data: only the category names used as lookup keys are modelled (Capital Gain, Capital Loss, Lease Interest, Loan Interest, Corporate Tax). A missing category gives a null category id.
- `processLeasePayments`: it is called from the Periods page but is not defined in the query module's source. `Leases.ProcessLeasePayments` is an assumption built from `recordLeasePayment` and the split of `getLeaseInterest`/`getLeaseCapital`. For each active lease below its duration, it posts the rounded interest as an expense when positive, then records the capital part. The "Lease interest: " title and the Lease Interest category are assumed too.
- Dates and clocks: `todayISO()` and every date are opaque string parameters.
- The income statement's default year selection is a parameter.
- Floating point: money is `real`.
  - No IEEE rounding error, overflow, `Infinity` or `NaN` is modelled.
  - A division by zero returns `None`: the annuity when (1 + r)^n is 0 or 1, and the dividend per share with no shares.
  - `Math.pow` is computed only for natural exponents. For a fractional month count its value is a parameter of `Leases.MonthlyOver` (`fracPow`).
- Leases.CreateLease: where the annuity divides by zero, the JavaScript stores `Infinity`/`NaN`; the model rejects instead (`NonFinitePayment`).
- Leases.CreatedLeaseTerms: the round trip is stated only for a duration of whole months. Otherwise the source prices the lease over years × 12 months but stores the rounded count, so the stored installment, paid for the stored duration, does not leave exactly the final payment.
- Parsing: `parseFloat`/`parseInt` inputs arrive already parsed, as `Option` values. Prefix parsing ("12abc" is 12) and unparsable settings are not modelled; a missing setting takes the source's default.
- TransactionsPage.Lower: `toLowerCase` is modelled for ASCII letters only.
- `deleteTransaction` and the Delete button of the Transactions page are not modelled.
- SQL ordering is not modelled beyond the current-row selection, the first-open-month lookup and the by-category `ORDER BY total DESC`. Rows are kept in insertion order.
- A category id shared by two rows is not modelled: the category join takes the first.
- The balance identity is not claimed across year-end closing, dividends, lease returns, or sales at a price other than net book value. The source does not keep it there. `BalanceSheet.SaleShiftsBalance` and `Leases.ReturnEffect` state the shift that occurs instead.
