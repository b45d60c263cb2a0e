/** The month and year lifecycle: farm setup (`initializeFarm` in
    src/db/queries.ts), opening and closing a month (src/components/Periods.tsx),
    the valuation snapshot taken at each close, and the invariant that keeps at
    most one month open, inside the one open fiscal year. */
module Periods {
  import opened Base
  import opened Tables
  import opened Depreciation
  import opened Ledger
  import opened Calculations
  import opened Leases

  // --- Decimal names ("Year 2") ---

  function DigitChar(d: nat): char
    requires d < 10
  {
    ('0' as int + d) as char
  }

  function DigitValue(c: char): int { c as int - '0' as int }

  /** `String(n)` for a natural number. */
  function DecimalString(n: nat): (r: string)
    ensures |r| >= 1
    ensures forall i :: 0 <= i < |r| ==> '0' <= r[i] <= '9'
    decreases n
  {
    if n < 10 then [DigitChar(n)] else DecimalString(n / 10) + [DigitChar(n % 10)]
  }

  /** The number a string of decimal digits denotes. */
  function DecimalValue(s: string): int
    decreases |s|
  {
    if |s| == 0 then 0 else DecimalValue(s[..|s| - 1]) * 10 + DigitValue(s[|s| - 1])
  }

  /** Reading back the decimal name of `n` gives `n`. */
  lemma {:induction false} DecimalRoundTrip(n: nat)
    ensures DecimalValue(DecimalString(n)) == n
    decreases n
  {
    if n >= 10 {
      DecimalRoundTrip(n / 10);
      var r := DecimalString(n);
      assert r[..|r| - 1] == DecimalString(n / 10);
      assert DigitValue(r[|r| - 1]) == n % 10;
      assert DecimalValue(r) == (n / 10) * 10 + n % 10;
    }
  }

  // --- Farm setup ---

  datatype FarmConfig = FarmConfig(
    saveName: string, initialCapital: real, totalShares: real, investorShares: real,
    taxRate: real, depYearsVehicle: int, depYearsImplement: int, depYearsBuilding: int,
    startMonth: int, buybackMultiplier: real)

  /** The share price the setup derives: capital per share, 0 without shares. */
  function ConfigSharePrice(c: FarmConfig): real {
    if c.totalShares > 0.0 then c.initialCapital / c.totalShares else 0.0
  }

  /** Every setting the setup writes. */
  function FarmSettings(c: FarmConfig): Settings {
    Settings(Some(c.saveName), Some(c.initialCapital), Some(c.totalShares), Some(c.investorShares),
             Some(c.totalShares - c.investorShares), Some(ConfigSharePrice(c)),
             Some(c.buybackMultiplier), Some(0.0), Some(c.taxRate), Some(c.depYearsVehicle),
             Some(c.depYearsImplement), Some(c.depYearsBuilding), Some(c.startMonth), true)
  }

  /** `initializeFarm`: the settings, fiscal year "Year 1" opening with the
      initial capital, its first month, and an opening snapshot. */
  function InitializeFarm(s: State, c: FarmConfig, today: string): State {
    var s1 := s.(settings := FarmSettings(c));
    var fyId := NextId(s1.fiscalYears, FiscalYearId);
    var s2 := InsertFiscalYear(s1, "Year 1", today, c.initialCapital);
    var periodId := NextId(s2.periods, PeriodId);
    var s3 := InsertPeriod(s2, fyId, MonthName(c.startMonth, 0), today);
    InsertSnapshot(s3, Some(periodId), today, c.initialCapital, 0.0, 0.0, 0.0, c.initialCapital,
                   ConfigSharePrice(c))
  }

  predicate EmptyStore(s: State) {
    && s.fiscalYears == [] && s.periods == [] && s.transactions == [] && s.assets == []
    && s.leases == [] && s.loans == [] && s.loanPayments == [] && s.dividends == []
    && s.snapshots == []
  }

  /** On an empty store the setup's settings read back as configured, "Year 1"
      and its first month are the current year and month, the opening snapshot
      holds exactly the live figures of the new store, and the lifecycle
      invariant holds. */
  lemma InitializeFarmEffect(s: State, c: FarmConfig, today: string)
    requires EmptyStore(s)
    ensures var s' := InitializeFarm(s, c, today);
            && InitialCapital(s'.settings) == c.initialCapital
            && TotalShares(s'.settings) == c.totalShares
            && InvestorShares(s'.settings) == c.investorShares
            && s'.settings.farmShares == Some(c.totalShares - c.investorShares)
            && AccumulatedLosses(s'.settings) == 0.0
            && TaxRatePercent(s'.settings) == c.taxRate
            && StartMonth(s'.settings) == c.startMonth
            && s'.settings.setupComplete
            && CurrentFiscalYear(s') == Some(FiscalYear(1, "Year 1", today, None, c.initialCapital))
            && CurrentPeriod(s') == Some(Period(1, 1, MonthName(c.startMonth, 0), today, None, 0.0))
            && s'.snapshots == [Snapshot(1, Some(1), today, CashBalance(s'), TotalAssetsNbv(s'),
                                         TotalDebt(s'), TotalLeaseObligations(s'), Valuation(s'),
                                         SharePrice(s'))]
            && Lifecycle(s')
  {
    var s' := InitializeFarm(s, c, today);
    EmptyStoreWorth(s');
    assert Lifecycle(s') by {
      assert OpenYear(s'.fiscalYears) == Some(s'.fiscalYears[0]);
    }
  }

  // --- Snapshots ---

  /** `createValuationSnapshot` fed with the live figures, as every month close does. */
  function TakeSnapshot(s: State, periodId: int, date: string): State {
    InsertSnapshot(s, Some(periodId), date, CashBalance(s), TotalAssetsNbv(s), TotalDebt(s),
                   TotalLeaseObligations(s), Valuation(s), SharePrice(s))
  }

  /** The derived figures read neither the period, fiscal-year nor snapshot
      tables (outside the fiscal-year scopes). */
  lemma FiguresIgnorePeriods(s: State, years: seq<FiscalYear>, periods: seq<Period>, snapshots: seq<Snapshot>)
    ensures var s' := s.(fiscalYears := years, periods := periods, snapshots := snapshots);
            && CashBalance(s') == CashBalance(s)
            && Valuation(s') == Valuation(s)
            && SharePrice(s') == SharePrice(s)
            && ExpenseTotal(s') == ExpenseTotal(s)
  {
    var s' := s.(fiscalYears := years, periods := periods, snapshots := snapshots);
    SumPointwise(s.transactions, Contribution(periods, AllRows, Revenue), Contribution(s.periods, AllRows, Revenue));
    SumPointwise(s.transactions, Contribution(periods, AllRows, Expense), Contribution(s.periods, AllRows, Expense));
  }

  // --- Depreciation booking and the balance sheet ---

  /** A booking lowers the summed net book value of unsold assets by exactly
      the total it returns and leaves purchases and sale proceeds alone. */
  lemma BookingMovesNbvOnly(assets: seq<Asset>, months: nat)
    ensures var r := BookPeriodDepreciation(assets, months);
            && Sum(r.0, UnsoldNbv) == Sum(assets, UnsoldNbv) - r.1
            && Sum(r.0, DirectPurchase) == Sum(assets, DirectPurchase)
            && Sum(r.0, SaleProceeds) == Sum(assets, SaleProceeds)
  {
    var r := BookPeriodDepreciation(assets, months).0;
    var after := (a: Asset) => UnsoldNbv(a) - Charge(a, months);
    forall i | 0 <= i < |assets| ensures UnsoldNbv(r[i]) == after(assets[i]) {
      if !Unsold(assets[i]) {
        assert !Depreciable(assets[i]);
      }
    }
    SumMap(r, assets, UnsoldNbv, after);
    SumAdd(assets, after, ChargeFor(months), UnsoldNbv);
    SumMap(r, assets, DirectPurchase, DirectPurchase);
    SumMap(r, assets, SaleProceeds, SaleProceeds);
  }

  /** Booking depreciation leaves cash unchanged and lowers valuation by the total booked. */
  lemma BookingValuation(s: State, months: nat)
    ensures var r := BookPeriodDepreciation(s.assets, months);
            && CashBalance(s.(assets := r.0)) == CashBalance(s)
            && TotalAssetsNbv(s.(assets := r.0)) == TotalAssetsNbv(s) - r.1
            && Valuation(s.(assets := r.0)) == Valuation(s) - r.1
  {
    BookingMovesNbvOnly(s.assets, months);
  }

  // --- The lifecycle invariant ---

  predicate UniqueYearIds(years: seq<FiscalYear>) {
    forall i, j :: 0 <= i < j < |years| ==> years[i].id != years[j].id
  }

  predicate AtMostOneOpenYear(years: seq<FiscalYear>) {
    forall i, j ::
      0 <= i < |years| && 0 <= j < |years| && FiscalYearOpen(years[i]) && FiscalYearOpen(years[j])
      ==> i == j
  }

  predicate AtMostOneOpenPeriod(periods: seq<Period>) {
    forall i, j ::
      0 <= i < |periods| && 0 <= j < |periods| && PeriodOpen(periods[i]) && PeriodOpen(periods[j])
      ==> i == j
  }

  /** `getCurrentFiscalYear` over the fiscal-year table alone. */
  function OpenYear(years: seq<FiscalYear>): Option<FiscalYear> {
    LatestWhere(years, FiscalYearOpen, FiscalYearId)
  }

  /** Every open month belongs to the open fiscal year and has nothing booked yet. */
  predicate OpenPeriodsInOpenYear(years: seq<FiscalYear>, periods: seq<Period>) {
    forall i :: 0 <= i < |periods| && PeriodOpen(periods[i]) ==>
      OpenYear(years).Some? && periods[i].fiscalYearId == OpenYear(years).value.id
      && periods[i].depreciationBooked == 0.0
  }

  /** What the Open Month, Close Month and Year-End buttons keep true. */
  predicate Lifecycle(s: State) {
    && UniqueYearIds(s.fiscalYears) && UniquePeriodIds(s.periods)
    && AtMostOneOpenYear(s.fiscalYears) && AtMostOneOpenPeriod(s.periods)
    && OpenPeriodsInOpenYear(s.fiscalYears, s.periods)
  }

  /** Under the invariant the current month lies in the current fiscal year. */
  lemma CurrentPeriodInCurrentYear(s: State)
    requires Lifecycle(s) && CurrentPeriod(s).Some?
    ensures CurrentFiscalYear(s).Some?
    ensures CurrentPeriod(s).value.fiscalYearId == CurrentFiscalYear(s).value.id
    ensures CurrentPeriod(s).value.depreciationBooked == 0.0
  {
    var p := CurrentPeriod(s).value;
    var i :| 0 <= i < |s.periods| && s.periods[i] == p;
  }

  // --- Open Month ---

  /** The Open Month button is offered with a fiscal year open and no month open. */
  predicate OpenMonthOffered(s: State) {
    CurrentFiscalYear(s).Some? && CurrentPeriod(s).None?
  }

  /** `handleOpenMonth`: a new month named after its position in the year,
      then one round of lease installments booked into it. */
  function OpenMonth(s: State, today: string): (o: Outcome)
    ensures o.Rejected? <==> CurrentFiscalYear(s).None?
    ensures o.Rejected? ==> o.reason == NoOpenYear
  {
    match CurrentFiscalYear(s)
    case None => Rejected(NoOpenYear)
    case Some(fy) =>
      var name := MonthName(StartMonth(s.settings), |PeriodsOf(s.periods, fy.id)|);
      var s1 := InsertPeriod(s, fy.id, name, today);
      Applied(ProcessLeasePayments(s1, NextId(s.periods, PeriodId), today, 1))
  }

  /** The month opened is the current month, in the current fiscal year, named
      by the start month and the count of the year's months so far; the leases
      take one installment each, and valuation moves only by the interest
      expense posted. */
  lemma OpenMonthEffect(s: State, today: string)
    requires CurrentFiscalYear(s).Some? && UniqueLeaseIds(s.leases)
    ensures var s' := OpenMonth(s, today).state;
            var fy := CurrentFiscalYear(s).value;
            && CurrentPeriod(s') == Some(Period(NextId(s.periods, PeriodId), fy.id,
                 MonthName(StartMonth(s.settings), |PeriodsOf(s.periods, fy.id)|), today, None, 0.0))
            && CurrentFiscalYear(s') == CurrentFiscalYear(s)
            && s'.leases == MonthOfInstallments(s.leases)
            && Valuation(s') == Valuation(s) - (ExpenseTotal(s') - ExpenseTotal(s))
            && (ValidStartMonth(s.settings) ==> CurrentPeriod(s').value.name.Some?)
  {
    var fy := CurrentFiscalYear(s).value;
    var name := MonthName(StartMonth(s.settings), |PeriodsOf(s.periods, fy.id)|);
    var s1 := InsertPeriod(s, fy.id, name, today);
    var p := Period(NextId(s.periods, PeriodId), fy.id, name, today, None, 0.0);
    LatestIsFresh(s.periods, p, PeriodOpen, PeriodId);
    FiguresIgnorePeriods(s, s.fiscalYears, s1.periods, s.snapshots);
    ProcessLeasePaymentsEffect(s1, p.id, today, 1);
    if ValidStartMonth(s.settings) {
      MonthNameCycle(StartMonth(s.settings), |PeriodsOf(s.periods, fy.id)|);
    }
  }

  /** Opening a month when the button is offered keeps the invariant. */
  lemma OpenMonthKeepsLifecycle(s: State, today: string)
    requires Lifecycle(s) && OpenMonthOffered(s)
    ensures Lifecycle(OpenMonth(s, today).state)
  {
    var fy := CurrentFiscalYear(s).value;
    var s' := OpenMonth(s, today).state;
    assert s'.periods == s.periods + [Period(NextId(s.periods, PeriodId), fy.id,
      MonthName(StartMonth(s.settings), |PeriodsOf(s.periods, fy.id)|), today, None, 0.0)];
    assert UniquePeriodIds(s'.periods) by {
      forall i, j | 0 <= i < j < |s'.periods| ensures s'.periods[i].id != s'.periods[j].id {
        if j == |s.periods| {
          assert s'.periods[i].id < NextId(s.periods, PeriodId);
        }
      }
    }
  }

  // --- Close Month ---

  /** The Close Month button is offered while a month is open. */
  predicate CloseMonthOffered(s: State) { CurrentPeriod(s).Some? }

  /** `handleCloseMonth`: book one month of depreciation, snapshot the figures
      that result, and close the month with the amount booked. */
  function CloseMonth(s: State, today: string): (o: Outcome)
    ensures o.Rejected? <==> CurrentPeriod(s).None?
    ensures o.Rejected? ==> o.reason == NoOpenPeriod
  {
    match CurrentPeriod(s)
    case None => Rejected(NoOpenPeriod)
    case Some(p) =>
      var booking := BookPeriodDepreciation(s.assets, 1);
      var s1 := TakeSnapshot(s.(assets := booking.0), p.id, today);
      Applied(s1.(periods := ClosePeriodRows(s1.periods, p.id, today, booking.1)))
  }

  /** Closing a month records on it the month's depreciation charge, takes a
      snapshot equal to the figures of the store after the close, keeps cash,
      and lowers valuation by exactly the depreciation booked. */
  lemma CloseMonthEffect(s: State, today: string)
    requires CurrentPeriod(s).Some?
    ensures var s' := CloseMonth(s, today).state;
            var p := CurrentPeriod(s).value;
            var dep := Sum(s.assets, ChargeFor(1));
            && s'.snapshots == s.snapshots + [Snapshot(NextId(s.snapshots, SnapshotId), Some(p.id),
                 today, CashBalance(s'), TotalAssetsNbv(s'), TotalDebt(s'), TotalLeaseObligations(s'),
                 Valuation(s'), SharePrice(s'))]
            && (forall i :: 0 <= i < |s.periods| && s.periods[i].id == p.id ==>
                  s'.periods[i] == s.periods[i].(closedAt := Some(today), depreciationBooked := dep))
            && CashBalance(s') == CashBalance(s)
            && Valuation(s') == Valuation(s) - dep
  {
    var p := CurrentPeriod(s).value;
    var booking := BookPeriodDepreciation(s.assets, 1);
    var s0 := s.(assets := booking.0);
    var s1 := TakeSnapshot(s0, p.id, today);
    BookingValuation(s, 1);
    FiguresIgnorePeriods(s0, s0.fiscalYears, ClosePeriodRows(s1.periods, p.id, today, booking.1),
                         s1.snapshots);
  }

  /** With unique period ids the close touches exactly the current month's row. */
  lemma ClosePeriodOne(periods: seq<Period>, i: nat, closedAt: string, booked: real)
    requires UniquePeriodIds(periods) && i < |periods|
    ensures ClosePeriodRows(periods, periods[i].id, closedAt, booked)
            == periods[i := periods[i].(closedAt := Some(closedAt), depreciationBooked := booked)]
  {
    var r := ClosePeriodRows(periods, periods[i].id, closedAt, booked);
    forall j | 0 <= j < |periods|
      ensures r[j] == periods[i := periods[i].(closedAt := Some(closedAt), depreciationBooked := booked)][j]
    {
      if j != i {
        assert periods[j].id != periods[i].id by {
          if j < i { } else { }
        }
      }
    }
  }

  /** With unique fiscal-year ids the year-end close touches exactly the closed year's row. */
  lemma CloseOneYear(years: seq<FiscalYear>, i: nat, closedAt: string)
    requires UniqueYearIds(years) && i < |years|
    ensures CloseFiscalYearRows(years, years[i].id, closedAt) == years[i := years[i].(closedAt := Some(closedAt))]
  {
    var r := CloseFiscalYearRows(years, years[i].id, closedAt);
    forall j | 0 <= j < |years|
      ensures r[j] == years[i := years[i].(closedAt := Some(closedAt))][j]
    {
      if j != i {
        assert years[j].id != years[i].id by {
          if j < i { } else { }
        }
      }
    }
  }

  /** Closing a month under the invariant leaves no month open and keeps the invariant. */
  lemma CloseMonthKeepsLifecycle(s: State, today: string)
    requires Lifecycle(s) && CloseMonthOffered(s)
    ensures Lifecycle(CloseMonth(s, today).state)
    ensures CurrentPeriod(CloseMonth(s, today).state).None?
  {
    var p := CurrentPeriod(s).value;
    var k :| 0 <= k < |s.periods| && s.periods[k] == p;
    var booking := BookPeriodDepreciation(s.assets, 1);
    ClosePeriodOne(s.periods, k, today, booking.1);
    var s' := CloseMonth(s, today).state;
    assert s'.periods == s.periods[k := p.(closedAt := Some(today), depreciationBooked := booking.1)];
    assert forall i :: 0 <= i < |s'.periods| ==> !PeriodOpen(s'.periods[i]);
  }
}
