/** The derived figures of src/lib/calculations.ts: asset, debt and lease
    totals, cash, valuation, share price, net profit and the buyback price. */
module Calculations {
  import opened Base
  import opened Tables
  import opened Depreciation
  import opened Ledger

  // --- Balance-sheet totals over the "active" rows ---

  predicate Unsold(a: Asset) { a.soldDate.None? }
  predicate LoanIsActive(l: Loan) { l.status == LoanActive }
  predicate LeaseIsActive(l: Lease) { l.status == LeaseActive }

  function LoanBalance(l: Loan): real { l.remainingBalance }
  function LeaseBalance(l: Lease): real { l.remainingBalance }

  /** Row values of the three totals: closed rows contribute 0. */
  function UnsoldNbv(a: Asset): real { if Unsold(a) then NetBookValue(a) else 0.0 }
  function ActiveLoanBalance(l: Loan): real { if LoanIsActive(l) then l.remainingBalance else 0.0 }
  function ActiveLeaseBalance(l: Lease): real { if LeaseIsActive(l) then l.remainingBalance else 0.0 }

  /** `getTotalAssetsNBV`. */
  function TotalAssetsNbv(s: State): real { Sum(s.assets, UnsoldNbv) }
  /** `getTotalDebt`. */
  function TotalDebt(s: State): real { Sum(s.loans, ActiveLoanBalance) }
  /** `getTotalLeaseObligations`. */
  function TotalLeaseObligations(s: State): real { Sum(s.leases, ActiveLeaseBalance) }

  /** The totals read only the rows `getActiveAssets`, `getActiveLoans` and
      `getActiveLeases` return: sold assets, paid-off loans and purchased or
      returned leases contribute nothing. */
  lemma TotalsCountActiveRows(s: State)
    ensures TotalAssetsNbv(s) == Sum(Filter(s.assets, Unsold), NetBookValue)
    ensures TotalDebt(s) == Sum(Filter(s.loans, LoanIsActive), LoanBalance)
    ensures TotalLeaseObligations(s) == Sum(Filter(s.leases, LeaseIsActive), LeaseBalance)
  {
    SumFilter(s.assets, Unsold, NetBookValue, UnsoldNbv);
    SumFilter(s.loans, LoanIsActive, LoanBalance, ActiveLoanBalance);
    SumFilter(s.leases, LeaseIsActive, LeaseBalance, ActiveLeaseBalance);
  }

  // --- Cash and valuation ---

  /** `getCashBalance`: every flow is summed over the whole history, starting
      from the `initial_capital` setting rather than a year's opening cash. */
  function CashBalance(s: State): real {
    InitialCapital(s.settings)
    + SumTransactions(s, Revenue, None, None)
    - SumTransactions(s, Expense, None, None)
    - TotalAssetPurchases(s)
    + TotalAssetSales(s)
    + TotalLoanProceeds(s)
    - TotalLoanPrincipalPayments(s)
    - TotalDividendsPaid(s)
    - TotalLeaseCapitalOutflow(s)
  }

  /** `getValuation`. */
  function Valuation(s: State): real {
    CashBalance(s) + TotalAssetsNbv(s) - TotalDebt(s) - TotalLeaseObligations(s)
  }

  /** A store with no rows is worth its initial capital, all of it cash. */
  lemma EmptyStoreWorth(s: State)
    requires s.transactions == [] && s.assets == [] && s.leases == [] && s.loans == []
    requires s.loanPayments == [] && s.dividends == []
    ensures CashBalance(s) == InitialCapital(s.settings)
    ensures Valuation(s) == InitialCapital(s.settings)
  {
  }

  /** Cash moves with revenue and expense rows one for one: a revenue row adds
      its amount, an expense row subtracts it. */
  lemma CashWithTransaction(s: State, t: Transaction)
    ensures CashBalance(s.(transactions := s.transactions + [t]))
            == CashBalance(s) + (if t.kind == Revenue then t.amount else -t.amount)
  {
    AppendTransaction(s, t, Revenue, AllRows);
    AppendTransaction(s, t, Expense, AllRows);
  }

  /** `getSharePrice`: valuation per share, 0 when the share count is not positive. */
  function SharePrice(s: State): (r: real)
    ensures TotalShares(s.settings) <= 0.0 ==> r == 0.0
    ensures TotalShares(s.settings) > 0.0 ==> r * TotalShares(s.settings) == Valuation(s)
  {
    var shares := TotalShares(s.settings);
    if shares <= 0.0 then 0.0 else Valuation(s) / shares
  }

  /** `getNetProfit(fiscalYearId)`: revenue minus expenses minus booked
      depreciation. An id of 0 is falsy, so every filter is dropped. */
  function NetProfit(s: State, fiscalYearId: int): real {
    SumTransactions(s, Revenue, None, Some(fiscalYearId))
    - SumTransactions(s, Expense, None, Some(fiscalYearId))
    - SumDepreciation(s, Some(fiscalYearId), None)
  }

  /** Periods of fiscal year `fiscalYearId`. */
  function OfYear(fiscalYearId: int): Period -> bool {
    (p: Period) => p.fiscalYearId == fiscalYearId
  }

  /** For a real fiscal year (non-zero id, unique period ids), net profit is the
      year's revenue rows minus its expense rows minus the depreciation booked
      on its periods; for id 0 it is the all-time figure. */
  lemma NetProfitOfYear(s: State, fiscalYearId: int)
    ensures fiscalYearId != 0 && UniquePeriodIds(s.periods) ==>
              NetProfit(s, fiscalYearId)
              == Sum(Filter(s.transactions, OfKindInYear(s.periods, Revenue, fiscalYearId)), Amount)
                 - Sum(Filter(s.transactions, OfKindInYear(s.periods, Expense, fiscalYearId)), Amount)
                 - Sum(Filter(s.periods, OfYear(fiscalYearId)), Booked)
    ensures fiscalYearId == 0 ==>
              NetProfit(s, 0)
              == Sum(Filter(s.transactions, OfKind(Revenue)), Amount)
                 - Sum(Filter(s.transactions, OfKind(Expense)), Amount)
                 - Sum(s.periods, Booked)
  {
    SumTransactionsSelects(s, Revenue, None, Some(fiscalYearId));
    SumTransactionsSelects(s, Expense, None, Some(fiscalYearId));
    var sc := DepreciationScope(Some(fiscalYearId), None);
    if fiscalYearId != 0 {
      SumFilter(s.periods, OfYear(fiscalYearId), Booked, ScopedBooked(sc));
    } else {
      SumPointwise(s.periods, ScopedBooked(sc), Booked);
    }
  }

  // --- Buyback ---

  /** `getBuybackMinPrice`: initial share price times the buyback multiplier. */
  function BuybackMinPrice(st: Settings): real {
    InitialSharePrice(st) * BuybackMultiplier(st)
  }

  /** `getBuybackEffectivePrice`: never below the minimum nor the share value,
      and always one of the two. */
  function BuybackEffectivePrice(s: State): (r: real)
    ensures r >= BuybackMinPrice(s.settings) && r >= SharePrice(s)
    ensures r == BuybackMinPrice(s.settings) || r == SharePrice(s)
  {
    Max(BuybackMinPrice(s.settings), SharePrice(s))
  }

  /** A missing setting falls back to its default in the minimum: an initial
      price of 100, a multiplier of 4, so 400 with neither stored; and the
      effective price of any store with neither stored is at least 400. */
  lemma DefaultBuybackMin(s: State)
    ensures s.settings.initialSharePrice.None? ==>
              BuybackMinPrice(s.settings) == 100.0 * BuybackMultiplier(s.settings)
    ensures s.settings.buybackMultiplier.None? ==>
              BuybackMinPrice(s.settings) == InitialSharePrice(s.settings) * 4.0
    ensures s.settings.initialSharePrice.None? && s.settings.buybackMultiplier.None? ==>
              BuybackMinPrice(s.settings) == 400.0 && BuybackEffectivePrice(s) >= 400.0
  {
  }
}
