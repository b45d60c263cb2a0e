/** The Balance Sheet page (src/components/BalanceSheet.tsx): the assets side,
    the liabilities-and-equity side, the difference between them and the
    warning shown when it exceeds one unit; and which operations keep the two
    sides apart by the same amount. */
module BalanceSheet {
  import opened Base
  import opened Tables
  import opened Depreciation
  import opened Ledger
  import opened Calculations
  import opened AssetCommands
  import opened Leases
  import opened Loans
  import opened Periods

  /** The figures the page shows. */
  datatype Sheet = Sheet(cash: real, assetsNbv: real, totalDebt: real, leaseObligations: real,
                         capital: real, accumulatedLosses: real, currentProfit: real,
                         totalAssets: real, totalLiabilities: real, difference: real)

  /** Net profit of the current fiscal year, 0 when no year is open. */
  function CurrentProfit(s: State): real {
    match CurrentFiscalYear(s)
    case Some(fy) => NetProfit(s, fy.id)
    case None => 0.0
  }

  /** The equity the liabilities side counts: capital, plus this year's
      profit, less the magnitude of the losses carried forward. */
  function Equity(s: State): real {
    InitialCapital(s.settings) + CurrentProfit(s) - Abs(AccumulatedLosses(s.settings))
  }

  /** How far the assets side exceeds the liabilities side: what valuation
      (assets less debts) holds beyond the equity the page counts. */
  function Imbalance(s: State): real { Valuation(s) - Equity(s) }

  /** The page's totals. The assets side less the liabilities side is the
      valuation of `getValuation` less equity, and the warning is shown
      exactly when that gap is more than 1 either way. */
  function BalanceSheetOf(s: State): (b: Sheet)
    ensures b.totalAssets - b.totalLiabilities == Imbalance(s)
    ensures b.totalAssets == b.cash + b.assetsNbv
    ensures b.totalLiabilities == b.capital + b.currentProfit - Abs(b.accumulatedLosses) + b.totalDebt + b.leaseObligations
    ensures b.difference >= 0.0
    ensures b.difference > 1.0 <==> Imbalance(s) > 1.0 || Imbalance(s) < -1.0
  {
    var cash := CashBalance(s);
    var nbv := TotalAssetsNbv(s);
    var debt := TotalDebt(s);
    var obligations := TotalLeaseObligations(s);
    var capital := InitialCapital(s.settings);
    var losses := AccumulatedLosses(s.settings);
    var profit := CurrentProfit(s);
    var actif := cash + nbv;
    var passif := capital + profit - Abs(losses) + debt + obligations;
    Sheet(cash, nbv, debt, obligations, capital, losses, profit, actif, passif, Abs(actif - passif))
  }

  /** The yellow warning card. */
  predicate ShowsWarning(s: State) { BalanceSheetOf(s).difference > 1.0 }

  // --- Frames ---

  /** Equity reads only the transactions, periods, fiscal years and settings. */
  lemma EquityReads(a: State, b: State)
    requires a.transactions == b.transactions && a.periods == b.periods
    requires a.fiscalYears == b.fiscalYears && a.settings == b.settings
    ensures Equity(a) == Equity(b)
  {
    assert a == b.(assets := a.assets, leases := a.leases, loans := a.loans, loanPayments := a.loanPayments,
                   dividends := a.dividends, snapshots := a.snapshots, categories := a.categories);
  }

  /** A revenue row counts for its amount, an expense row against it. */
  function Signed(t: Transaction): real { if t.kind == Revenue then t.amount else -t.amount }

  /** Under the lifecycle invariant the current month's fiscal year is found
      by the transaction join. */
  lemma CurrentPeriodYear(s: State)
    requires Lifecycle(s) && CurrentPeriod(s).Some?
    ensures CurrentFiscalYear(s).Some?
    ensures PeriodYear(s.periods, CurrentPeriod(s).value.id) == Some(CurrentFiscalYear(s).value.id)
  {
    CurrentPeriodInCurrentYear(s);
    var p := CurrentPeriod(s).value;
    var k :| 0 <= k < |s.periods| && s.periods[k] == p;
    var r := PeriodYear(s.periods, p.id);
    assert r.Some?;
    var i :| 0 <= i < |s.periods| && s.periods[i].id == p.id && s.periods[i].fiscalYearId == r.value;
    assert i == k by {
      if i < k { } else if i > k { }
    }
  }

  /** A transaction posted to the current month moves this year's profit,
      and so equity, by its signed amount. */
  lemma PostingEquity(s: State, t: Transaction)
    requires Lifecycle(s) && CurrentPeriod(s).Some? && t.periodId == CurrentPeriod(s).value.id
    ensures Equity(s.(transactions := s.transactions + [t])) == Equity(s) + Signed(t)
  {
    CurrentPeriodYear(s);
    var fy := CurrentFiscalYear(s).value;
    var sc := TransactionScope(None, Some(fy.id));
    if fy.id != 0 {
      JoinCountUnique(s.periods, t.periodId, fy.id);
    }
    AppendTransaction(s, t, Revenue, sc);
    AppendTransaction(s, t, Expense, sc);
  }

  /** Posting a transaction to the current month keeps the balance: cash and
      this year's profit move together. */
  lemma PostingKeepsBalance(s: State, t: Transaction)
    requires Lifecycle(s) && CurrentPeriod(s).Some? && t.periodId == CurrentPeriod(s).value.id
    ensures Imbalance(s.(transactions := s.transactions + [t])) == Imbalance(s)
  {
    PostingEquity(s, t);
    CashWithTransaction(s, t);
  }

  // --- Operations that keep the balance ---

  /** Setting up a farm balances: all the capital is cash and nothing else is owned, owed or earned. */
  lemma FarmSetupBalances(s: State, c: FarmConfig, today: string)
    requires EmptyStore(s)
    ensures Imbalance(InitializeFarm(s, c, today)) == 0.0
    ensures !ShowsWarning(InitializeFarm(s, c, today))
  {
    InitializeFarmEffect(s, c, today);
    var s' := InitializeFarm(s, c, today);
    var fy := CurrentFiscalYear(s').value;
    assert s'.transactions == [] && s'.assets == [] && s'.leases == [] && s'.loans == [];
    assert s'.loanPayments == [] && s'.dividends == [] && |s'.periods| == 1;
    assert s'.periods[0].depreciationBooked == 0.0;
    SumZero(s'.periods, ScopedBooked(DepreciationScope(Some(fy.id), None)));
    EmptyStoreWorth(s');
  }

  /** Drawing a loan keeps the balance: cash and debt rise together. */
  lemma LoanDrawKeepsBalance(s: State, name: string, principal: Option<real>, rate: Option<real>, date: string)
    requires CreateLoan(s, name, principal, rate, date).Applied?
    ensures Imbalance(CreateLoan(s, name, principal, rate, date).state) == Imbalance(s)
  {
    CreateLoanKeepsValuation(s, name, principal, rate, date);
    EquityReads(CreateLoan(s, name, principal, rate, date).state, s);
  }

  /** Paying a loan's interest keeps the balance: the expense lowers cash and
      this year's profit alike. */
  lemma InterestKeepsBalance(s: State, i: nat, date: string)
    requires Lifecycle(s)
    requires UniqueLoanIds(s.loans) && i < |s.loans| && s.loans[i].remainingBalance > PaidOffThreshold
    requires PayInterest(s, s.loans[i].id, date).Applied?
    ensures Imbalance(PayInterest(s, s.loans[i].id, date).state) == Imbalance(s)
  {
    PayInterestEffect(s, i, date);
    var s' := PayInterest(s, s.loans[i].id, date).state;
    var t := s'.transactions[|s.transactions|];
    assert s'.transactions == s.transactions + [t];
    EquityReads(s', s.(transactions := s.transactions + [t]));
    PostingEquity(s, t);
  }

  /** Repaying capital keeps the balance, except that a loan closed at a
      balance of a cent or less drops that remainder from the debt. */
  lemma RepayKeepsBalance(s: State, i: nat, amount: Option<real>, date: string)
    requires UniqueLoanIds(s.loans) && i < |s.loans| && s.loans[i].status == LoanActive
    requires RepayCapital(s, Some(s.loans[i].id), amount, date).Applied?
    ensures var s' := RepayCapital(s, Some(s.loans[i].id), amount, date).state;
            Imbalance(s) <= Imbalance(s') <= Imbalance(s) + PaidOffThreshold
  {
    RepayCapitalEffect(s, i, amount, date);
    EquityReads(RepayCapital(s, Some(s.loans[i].id), amount, date).state, s);
  }

  /** Buying an asset outright keeps the balance: cash becomes book value. */
  lemma PurchaseKeepsBalance(s: State, name: string, assetType: AssetType, price: Option<real>, date: string)
    requires BuyAsset(s, name, assetType, price, date).Applied?
    ensures Imbalance(BuyAsset(s, name, assetType, price, date).state) == Imbalance(s)
  {
    BuyKeepsValuation(s, name, assetType, price, date);
    EquityReads(BuyAsset(s, name, assetType, price, date).state, s);
  }

  /** Creating a lease keeps the balance: the asset enters at its price,
      balanced by the down payment and the new obligation. */
  lemma LeaseCreationKeepsBalance(s: State, leaseType: Option<AssetType>, name: string, price: Option<real>,
                                  down: Option<real>, final: Option<real>, rate: Option<real>, years: Option<real>,
                                  fracPow: real -> real, date: string)
    requires CreateLease(s, leaseType, name, price, down, final, rate, years, fracPow, date).Applied?
    ensures Imbalance(CreateLease(s, leaseType, name, price, down, final, rate, years, fracPow, date).state) == Imbalance(s)
  {
    CreateLeaseKeepsValuation(s, leaseType, name, price, down, final, rate, years, fracPow, date);
    EquityReads(CreateLease(s, leaseType, name, price, down, final, rate, years, fracPow, date).state, s);
  }

  /** Buying out a lease keeps the balance: cash pays off the obligation. */
  lemma BuyOutKeepsBalance(s: State, i: nat)
    requires UniqueLeaseIds(s.leases) && i < |s.leases| && s.leases[i].status == LeaseActive
    requires HandlePurchase(s, s.leases[i].id).Applied?
    ensures Imbalance(HandlePurchase(s, s.leases[i].id).state) == Imbalance(s)
  {
    BuyOutPaysRemaining(s, i);
    EquityReads(HandlePurchase(s, s.leases[i].id).state, s);
  }

  /** A lease installment posted to the current month keeps the balance: the
      capital part moves from cash to the obligation, the interest part is an
      expense of this year. */
  lemma InstallmentKeepsBalance(s: State, i: nat, date: string)
    requires Lifecycle(s) && CurrentPeriod(s).Some?
    requires UniqueLeaseIds(s.leases) && i < |s.leases|
    ensures Imbalance(PayInstallment(s, i, CurrentPeriod(s).value.id, date)) == Imbalance(s)
  {
    var periodId := CurrentPeriod(s).value.id;
    var s' := PayInstallment(s, i, periodId, date);
    InstallmentStep(s, i, periodId, date);
    var l := s.leases[i];
    if Due(l) && LeaseInterest(l) > 0.0 {
      var t := s'.transactions[|s.transactions|];
      assert s'.transactions == s.transactions + [t];
      assert t.periodId == periodId && t.kind == Expense;
      EquityReads(s', s.(transactions := s.transactions + [t]));
      PostingEquity(s, t);
      AppendTransaction(s, t, Expense, AllRows);
    } else {
      assert s'.transactions == s.transactions;
      EquityReads(s', s);
    }
  }

  // --- Closing a month ---

  /** Period tables with the same ids and years in the same places. */
  predicate SameKeys(a: seq<Period>, b: seq<Period>) {
    |a| == |b| && forall j :: 0 <= j < |a| ==> a[j].id == b[j].id && a[j].fiscalYearId == b[j].fiscalYearId
  }

  /** The transaction join depends only on the period ids and years. */
  lemma {:induction false} JoinCountSameKeys(a: seq<Period>, b: seq<Period>, periodId: int, fiscalYearId: int)
    requires SameKeys(a, b)
    ensures JoinCount(a, periodId, fiscalYearId) == JoinCount(b, periodId, fiscalYearId)
    decreases |a|
  {
    if |a| > 0 {
      var n := |a| - 1;
      var keep := (p: Period) => p.id == periodId && p.fiscalYearId == fiscalYearId;
      assert SameKeys(a[..n], b[..n]);
      JoinCountSameKeys(a[..n], b[..n], periodId, fiscalYearId);
      assert keep(a[n]) == keep(b[n]);
      assert |Filter(a, keep)| == |Filter(a[..n], keep)| + (if keep(a[n]) then 1 else 0);
      assert |Filter(b, keep)| == |Filter(b[..n], keep)| + (if keep(b[n]) then 1 else 0);
    }
  }

  /** Hence so does the number of times a transaction row is joined. */
  lemma MultiplicitySameKeys(a: seq<Period>, b: seq<Period>, sc: Scope, t: Transaction)
    requires SameKeys(a, b)
    ensures Multiplicity(a, sc, t) == Multiplicity(b, sc, t)
  {
    if sc.InFiscalYear? {
      JoinCountSameKeys(a, b, t.periodId, sc.fiscalYearId);
    }
  }

  /** What a transaction contributes to a total depends on the periods only
      through the number of times it is joined. */
  lemma ContributionByMultiplicity(a: seq<Period>, b: seq<Period>, sc: Scope, kind: TxType, t: Transaction)
    requires Multiplicity(a, sc, t) == Multiplicity(b, sc, t)
    ensures Contribution(a, sc, kind)(t) == Contribution(b, sc, kind)(t)
  {
  }

  /** And so do the transaction totals. */
  lemma {:induction false} TotalsSameKeys(ts: seq<Transaction>, a: seq<Period>, b: seq<Period>, kind: TxType, sc: Scope)
    requires SameKeys(a, b)
    ensures Sum(ts, Contribution(a, sc, kind)) == Sum(ts, Contribution(b, sc, kind))
  {
    forall i | 0 <= i < |ts|
      ensures Contribution(a, sc, kind)(ts[i]) == Contribution(b, sc, kind)(ts[i])
    {
      MultiplicitySameKeys(a, b, sc, ts[i]);
      ContributionByMultiplicity(a, b, sc, kind, ts[i]);
    }
    SumPointwise(ts, Contribution(a, sc, kind), Contribution(b, sc, kind));
  }

  /** Closing the month books its depreciation on a row of this year, so the
      profit falls with the book value and the balance is kept. */
  lemma CloseMonthKeepsBalance(s: State, today: string)
    requires Lifecycle(s) && CurrentPeriod(s).Some?
    ensures Imbalance(CloseMonth(s, today).state) == Imbalance(s)
  {
    CurrentPeriodInCurrentYear(s);
    CloseMonthEffect(s, today);
    var p := CurrentPeriod(s).value;
    var fy := CurrentFiscalYear(s).value;
    var dep := Sum(s.assets, ChargeFor(1));
    var k :| 0 <= k < |s.periods| && s.periods[k] == p;
    var s' := CloseMonth(s, today).state;
    var booking := BookPeriodDepreciation(s.assets, 1);
    ClosePeriodOne(s.periods, k, today, booking.1);
    var p' := p.(closedAt := Some(today), depreciationBooked := dep);
    assert s'.periods == s.periods[k := p'];
    assert SameKeys(s'.periods, s.periods);
    assert s'.fiscalYears == s.fiscalYears && s'.settings == s.settings && s'.transactions == s.transactions;
    var sc := TransactionScope(None, Some(fy.id));
    TotalsSameKeys(s.transactions, s'.periods, s.periods, Revenue, sc);
    TotalsSameKeys(s.transactions, s'.periods, s.periods, Expense, sc);
    var dsc := DepreciationScope(Some(fy.id), None);
    SumUpdate(s.periods, k, p', ScopedBooked(dsc));
    assert CurrentFiscalYear(s') == CurrentFiscalYear(s);
    assert NetProfit(s', fy.id) == NetProfit(s, fy.id) - dep;
  }

  // --- Where the two sides part ---

  /** Selling an asset moves the balance by the gain (or loss): the cash
      formula counts both the proceeds and the gain or loss row, while
      equity counts the gain once. */
  lemma SaleShiftsBalance(s: State, k: nat, salePrice: Option<real>, date: string)
    requires Lifecycle(s)
    requires UniqueAssetIds(s.assets) && k < |s.assets| && NeverSold(s.assets[k])
    requires SellAsset(s, Some(s.assets[k].id), salePrice, date).Applied?
    ensures Imbalance(SellAsset(s, Some(s.assets[k].id), salePrice, date).state)
            == Imbalance(s) + (salePrice.value - NetBookValue(s.assets[k]))
  {
    SaleValuationEffect(s, k, salePrice, date);
    SaleEquityEffect(s, k, salePrice, date);
  }

  /** Equity counts the gain or loss row of a sale once. */
  lemma SaleEquityEffect(s: State, k: nat, salePrice: Option<real>, date: string)
    requires Lifecycle(s)
    requires UniqueAssetIds(s.assets) && k < |s.assets|
    requires SellAsset(s, Some(s.assets[k].id), salePrice, date).Applied?
    ensures Equity(SellAsset(s, Some(s.assets[k].id), salePrice, date).state)
            == Equity(s) + (salePrice.value - NetBookValue(s.assets[k]))
  {
    var id := s.assets[k].id;
    var sp := salePrice.value;
    var s' := SellAsset(s, Some(id), salePrice, date).state;
    FindUniqueAsset(s.assets, k);
    var nbv := NetBookValue(s.assets[k]);
    if sp != nbv {
      var t := s'.transactions[|s.transactions|];
      assert s'.transactions == s.transactions + [t];
      assert t.periodId == CurrentPeriod(s).value.id;
      assert Signed(t) == sp - nbv;
      EquityReads(s', s.(transactions := s.transactions + [t]));
      PostingEquity(s, t);
    } else {
      EquityReads(s', s);
    }
  }
}
